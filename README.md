# DP-SGD fine-tuning with active pool selection, modelled in Dafny

`improve_baseline_svhn.py` improves a pretrained SVHN classifier. It does so in three steps:

1. It scores an unlabelled pool of extra examples and picks `n_extra` of them. The score is one of:
   - the entropy of the predicted distribution;
   - the gap between the two most likely classes;
   - a random permutation.
2. It fine-tunes the classifier on those examples for `epochs` epochs.
3. The updates are either plain or differentially private. The private update (DP-SGD) works as follows:
   - each example's gradient is clipped to the global L2 bound `l2_norm_clip`;
   - the clipped gradients are summed over the batch;
   - Gaussian noise of standard deviation `l2_norm_clip * noise_multiplier` is added;
   - the result is divided by the configured `batch_size`.

This project models the control and selection logic of the script, over exact reals. Each module has a source file:

- `sequences.dfy` (`Sequences`): Python slicing, with negative bounds clamped, and `s[::-1]`. It also gives `onp.where` on a boolean vector.
- `sorting.dfy` (`Sorting`): `onp.argsort`, characterised by `IsArgsort`, and `onp.sort`. numpy does not fix the order of ties. So every property that mentions an argsort order holds for every valid order.
- `batching.dfy` (`Batching`): the batch count `divmod` plus `bool(leftover)`. It also covers cutting a data set into `batch_size` slices.
- `classifier.dfy` (`Classifier`): the embedding/head split in `predict`, the batched pool logits, `np.argmax` (first maximum) and `accuracy`.
- `private_gradient.dfy` (`PrivateGradient`): `private_grad`. A gradient is the list of its leaves in `tree_flatten` order, each leaf raveled; a gradient's global norm is given together with it and characterised by its square.
- `pool_selection.dfy` (`PoolSelection`): lines 287-344 of `main`. These cover:
  - the correct/incorrect partition of the pool;
  - the three criteria;
  - every error the selection can raise: argmax of an empty row, an unknown flag value, `min` of an empty array, a row too short for the second-largest entry, the positive-gap assertion, and the `n_extra` assertion.
- `fine_tuning.dfy` (`FineTuning`): the epoch/batch loops of `main`, as a method with loop invariants. The method is proved against the functions `EpochSteps` and `Trained`.

Inputs rather than computations:

- the per-example gradients and their global norms;
- the optimiser update (`opt_update`), `grad_loss` and `private_grad` as used inside the loop;
- `fold_in`;
- the Gaussian sample of each leaf;
- the softmax probabilities and the entropies;
- `npr.permutation(n_pool)`;
- `random.PRNGKey(seed)`;
- the batch the minibatcher yields at each step of each epoch.

The one data precondition beyond the types is that the gradients of a batch have the parameters' shape, as `vmap` and `tree_map` require. The required operations are:

- the clipping bound must be non-zero, because it is a divisor;
- the batch size must be non-zero, and positive for the loops. `main` has already failed before the loops for a batch size <= 0: `range(0, n_pool, 0)` raises, and a negative step leaves nothing to concatenate;
- the pool arrays (labels, logits, probabilities, entropies, permutation) have one entry per pool example.

The parameter split of `predict` slices with `params[:-1]` and `params[-1:]`, which never fails: an empty list splits into two empty lists, and otherwise the head part is the last layer alone (`Classifier.SplitParamsPartitions`).

## Model

| member | source | states |
|---|---|---|
| Classifier.SplitParamsPartitions | improve_baseline_svhn.py:112-114 | the embedding part followed by the head part is the whole parameter list; the head part is the last layer alone, or empty for an empty list |
| Classifier.Predict | improve_baseline_svhn.py:112-117 | one logit row per input row |
| Classifier.PoolLogitsArePredictions | improve_baseline_svhn.py:280-285 | computing the pool embeddings `batch_size` rows at a time, concatenating, then applying the head equals `predict` on the whole pool; a non-positive batch size or an empty pool gives no logits, because the source raises there |
| Classifier.ArgMax | improve_baseline_svhn.py:131-132 | argmax of a row is an in-range position holding a maximum, and every earlier position holds a strictly smaller value (the first maximum) |
| Classifier.ArgMaxOfOneHot | improve_baseline_svhn.py:131 | the target class of a one-hot row is its hot position |
| Classifier.AllHit | improve_baseline_svhn.py:133 | the number of matching rows equals the number of rows exactly when every row's predicted class is its target class |
| Classifier.Fraction | improve_baseline_svhn.py:133 | the mean of a boolean vector lies in [0, 1], is 1 exactly when all entries hold, and is NaN for an empty vector |
| Classifier.Accuracy | improve_baseline_svhn.py:129-137 | error exactly when some label or logit row is empty; otherwise accuracy = matching rows / rows, in [0, 1], equal to 1 iff every row matches, NaN for no rows; the returned predicted classes are the per-row argmaxes exactly when requested |
| Classifier.AccuracyOfTargets | improve_baseline_svhn.py:129-137 | scoring the targets against themselves gives accuracy 1 |
| Sequences.Where | improve_baseline_svhn.py:289-292 | `where` lists positions of the mask in strictly ascending order, all in range, no more than the mask has |
| Sequences.WhereMembers | improve_baseline_svhn.py:289-292 | a position is listed by `where` exactly when it is in range and the mask holds there |
| Sequences.WhereFull | improve_baseline_svhn.py:289-292 | `where` lists as many positions as the mask has exactly when the mask holds everywhere |
| Sequences.WhereSplits | improve_baseline_svhn.py:289-294 | every position is listed by `where(m)` or by `where(!m)` and never by both, so the two lengths add up to the length of the mask |
| Sorting.ArgSort | improve_baseline_svhn.py:303 | argsort lists each position once, in an order along which the values never decrease |
| Sorting.Sort | improve_baseline_svhn.py:315 | the sorted row is ascending, of the same length, and is the row read along some argsort order, so a rearrangement of its entries |
| Sorting.SortKeepsValues | improve_baseline_svhn.py:315 | every entry of the row occurs in the sorted row and every entry of the sorted row occurs in the row |
| Sorting.InsertDistinct | improve_baseline_svhn.py:303 | inserting a new position into a position list without repetition repeats nothing |
| Sorting.InsertAscending | improve_baseline_svhn.py:303 | inserting a position after every position of no larger value keeps the list ascending by value |
| Batching.NumBatchesIsCeiling | improve_baseline_svhn.py:350-351 | the batch count is the ceiling of `num_extra / batch_size` |
| Batching.ConcatChunks | improve_baseline_svhn.py:280-283 | concatenating the slices `s[i:i+b]` for `i` in `range(0, n, b)` gives back `s` |
| Batching.ChunkSizes | improve_baseline_svhn.py:280-282 | there are ceiling(n / b) slices; all but the last hold b elements, and the last holds between 1 and b |
| PrivateGradient.NormOfLeafNorms | improve_baseline_svhn.py:148-150 | the norm of the per-leaf norms is the global norm of all components together, which is the norm of the flattened gradient, not a per-layer norm |
| PrivateGradient.Divisor | improve_baseline_svhn.py:151 | the divisor is at least 1 and at least norm / bound, and is one of the two |
| PrivateGradient.Clip | improve_baseline_svhn.py:148-153 | clipping keeps the number of leaves and the length of every leaf |
| PrivateGradient.SqNormDiv | improve_baseline_svhn.py:152 | dividing every leaf by d multiplies the squared global norm by t² for the inverse t of d, that is, divides it by d² |
| PrivateGradient.ClipKeepsSmall | improve_baseline_svhn.py:149-153 | with global norm at most the bound, the clipped gradient is the gradient itself |
| PrivateGradient.ClipRescalesLarge | improve_baseline_svhn.py:149-153 | with global norm above the bound, the clipped gradient has norm exactly the bound |
| PrivateGradient.ClipBounded | improve_baseline_svhn.py:149-153 | the clipped gradient's norm never exceeds the bound |
| PrivateGradient.Sum | improve_baseline_svhn.py:160-161 | the batch sum has the parameters' shape |
| PrivateGradient.Noise | improve_baseline_svhn.py:157 | the noise has the parameters' shape |
| PrivateGradient.SharedNoiseKey | improve_baseline_svhn.py:157 | leaves of equal size receive identical noise, because one key serves every leaf |
| PrivateGradient.PrivateGrad | improve_baseline_svhn.py:140-166 | the private gradient has the parameters' shape |
| PrivateGradient.PrivateGradAt | improve_baseline_svhn.py:155-166 | component by component, the result is (sum of the clipped components + bound × noise multiplier × noise) / batch_size |
| PrivateGradient.ZeroNoise | improve_baseline_svhn.py:155-166 | with noise multiplier 0 the result is the clipped sum divided by batch_size |
| PrivateGradient.NoClippingNoNoise | improve_baseline_svhn.py:149-166 | when no example exceeds the bound and there is no noise, the result is the plain gradient sum divided by batch_size |
| PrivateGradient.SumWithout | improve_baseline_svhn.py:160-161 | the batch sum is the sum over all other examples plus example i, for any i |
| PrivateGradient.Sensitivity | improve_baseline_svhn.py:149-161 | removing one example changes the clipped sum by exactly that example's clipped gradient, whose norm is at most the bound |
| PrivateGradient.TwoExampleScenario | improve_baseline_svhn.py:151-166 | norms 3 and 0.5, bound 1, no noise, batch size 2: divisors 3 and 1, clipped components 1 and 0.5, result 0.75 |
| PrivateGradient.ShortBatch | improve_baseline_svhn.py:158 | a short batch is divided by the configured batch size: one example 0.5 under batch size 2 gives 0.25 |
| PoolSelection.PoolPartition | improve_baseline_svhn.py:287-294 | correct and incorrect indices are ascending and disjoint; an index is correct iff its true and predicted labels agree, and incorrect iff they differ; the lengths sum to the pool size |
| PoolSelection.ArgMaxSplitsPool | improve_baseline_svhn.py:287-294 | on one-hot labels and logits, `correct_idx` holds exactly the indices whose label argmax equals the logit argmax and `incorrect_idx` exactly the others, both ascending, with lengths adding up to the pool size |
| PoolSelection.PrefixOfPermutation | improve_baseline_svhn.py:329 | the first k entries of a permutation are distinct and in range, as many as the slice keeps, and every index left out lies further down |
| PoolSelection.SelectLowest | improve_baseline_svhn.py:322 | for any argsort order, `argsort[:k]` is distinct and in range, ascending by score, and no selected score exceeds an unselected one |
| PoolSelection.ReversedArgsort | improve_baseline_svhn.py:306 | an argsort order read backwards is a permutation, descending by score |
| PoolSelection.SelectHighest | improve_baseline_svhn.py:303-306 | for any argsort order, `argsort[::-1][:k]` is distinct and in range, descending by score, and no unselected score exceeds a selected one |
| PoolSelection.TopTwoGap | improve_baseline_svhn.py:315-316 | the gap between the last two sorted entries is non-negative |
| PoolSelection.TopTwoGapPositions | improve_baseline_svhn.py:315-316 | the gap is between two different positions: one holding the largest entry, the other the largest of the rest |
| PoolSelection.TopTwoGapZeroIffTie | improve_baseline_svhn.py:316-317 | the gap is zero exactly when the largest entry occurs twice, which is when the positivity assertion fails |
| PoolSelection.TopTwoGapOfPair | improve_baseline_svhn.py:316 | with two classes of different probability, in either order, the gap is their difference |
| PoolSelection.TopTwoGapOfTie | improve_baseline_svhn.py:316-317 | two equally likely classes give a zero gap |
| PoolSelection.Gaps | improve_baseline_svhn.py:316 | one gap per pool example |
| PoolSelection.Uncertain | improve_baseline_svhn.py:298-329 | per criterion: when it succeeds (entropy needs a non-empty selection; gap also needs rows of at least two entries and all gaps positive); it picks distinct in-range indices, as many as `[:n_extra]` keeps; entropy picks are descending and no unpicked entropy is larger; gap picks are ascending and no unpicked gap is smaller; random picks are `perm[:n_extra]` |
| PoolSelection.PickUncertain | improve_baseline_svhn.py:298-344 | an unknown flag value is an error; success exactly when 0 < n_extra <= pool size (entropy), plus rows of at least two entries and every gap positive (gap), or 0 <= n_extra <= pool size (random); on success (`PickedFor`) exactly `n_extra` distinct in-range indices, listed by descending entropy with no unpicked entropy larger (entropy), listed by ascending gap with no unpicked gap smaller (gap), or `perm[:n_extra]` (random) |
| PoolSelection.PickExtraPoints | improve_baseline_svhn.py:287-344 | argmax error exactly on an empty row; an unknown flag value is an error; on success the correct/incorrect lists split the pool by label argmax against logit argmax (`SplitsPool`), and the picks meet `PickedFor`: exactly `n_extra` (0 <= n_extra <= pool size) distinct in-range indices, in the criterion's order within the list and with the criterion's bound against unpicked indices; success exactly when 0 < n_extra <= pool size (entropy), plus every gap positive (gap), or 0 <= n_extra <= pool size (random) |
| FineTuning.FineTune | improve_baseline_svhn.py:346-374 | the final optimiser state is the function-level run of max(epochs, 0) epochs of `num_batches` updates each, the state threaded in order; each epoch's step indices are 0, 1, …, num_batches-1, so step j of every epoch uses noise key `fold_in(key, j)` |
| FineTuning.FineTuneOneCounter | improve_baseline_svhn.py:360-374 | with the counter and key created once, step j of epoch e uses index e·num_batches + j; the final state is the function-level run with that indexing |
| FineTuning.RestartReusesNoiseKey | improve_baseline_svhn.py:360-371 | as written, with two epochs over one batch, the second epoch's update reuses the first's noise key, where a single counter would give indices 0 and 1 |
| FineTuning.OneCounterIndicesDistinct | improve_baseline_svhn.py:271 | with one counter, two updates share a step index only if they are the same update |
| FineTuning.OneCounterKeysDistinct | improve_baseline_svhn.py:271 | with one counter and a key derivation injective in the counter, no two updates share a noise key |
| FineTuning.EpochStepsIgnoreCounter | improve_baseline_svhn.py:264-266 | without noise and with a step-independent optimiser, one epoch reaches the same state under either counter |
| FineTuning.RestartHarmlessWithoutNoise | improve_baseline_svhn.py:264-266 | without noise and with a step-independent optimiser (plain SGD at a fixed rate), resetting the counter every epoch does not change the trained state |

## Left out

- The network layers (`stax.serial`: convolutions, tanh, max-pooling, dense) are left out: they are floating-point numerics. They appear as the per-example functions `embed` and `head`.
- `loss` and `logsoftmax` are left out for the same reason. The softmax probabilities and the entropies (`-sum p log p`) are inputs.
- Automatic differentiation, `vmap` and `jit` are left out: the model cannot verify them from the text. Per-example gradients of `grad_loss` are given, as sequences of raveled leaves in `tree_flatten` order.
- PrivateGradient.Clip: the global norm is an input characterised by its square. The model has no square root, so the norm is not computed.
- PrivateGradient.Noise: `random.normal(rng, shape)` is given as the sample for a leaf of a given element count. This assumes the sample depends only on the key and the element count, since leaf shapes are reduced to lengths.
- `fold_in`, `PRNGKey`, and `grad_loss`/`private_grad` as called inside the loop are given as functions or values. The optimiser `opt_update`/`get_params` (SGD) is given too. These are foreign library code.
- `compute_epsilon` is left out: it is a wrapper over a foreign privacy-accounting library, and `main` never calls it.
- The minibatcher and `DataChunk` are foreign. The batch they yield at each step of each epoch is an input, so the model does not state which examples each batch holds.
- Data loading, normalisation, checkpoint loading, augmentation, deep copies, logging, timing, the per-epoch test evaluation and the visualisation are left out as I/O and reporting.
- `FLAGS.uncertain` is an integer flag, so its comparisons with the strings `'entropy'`, `'difference'` and `'random'` never succeed. Only the codes 0, 1 and 2 are modelled.
- Float special values are left out: infinities and NaN from a zero clipping bound or zero batch size, `log 0` in the entropy, and rounding. Those arguments are excluded by preconditions, and arithmetic is exact.
- numpy broadcasting of mismatched lengths is left out. Inputs of equal length are required where numpy needs them.
- `assert len(pool_probs.shape) == 2` always holds for a matrix of rows, so the model does not check it. A pool row shorter than two entries is the row-too-short error.
- PoolSelection.PickExtraPoints: the stable argsort used in the body is one valid argsort. The ordering properties are proved for every valid argsort order (`SelectLowest`, `SelectHighest`), but the exact indices numpy picks among tied scores are not modelled.

## Findings

| source | as written | input that shows it | evidently intended | confidence | as-written member | corrected member |
|---|---|---|---|---|---|---|
| improve_baseline_svhn.py:360-371 | `itercount` and `key` are recreated inside the epoch loop, so `next(itercount)` restarts at 0 every epoch and `fold_in(key, i)` yields the same noise keys in every epoch | `dpsgd` set, `epochs = 2`, `n_extra = batch_size`: the single update of epoch 2 uses the noise key of the single update of epoch 1, so the Gaussian noise repeats | one counter and one key created before the epoch loop, so every update of the run draws fresh noise | medium, not executed | FineTuning.FineTune, FineTuning.RestartReusesNoiseKey | FineTuning.FineTuneOneCounter, FineTuning.OneCounterKeysDistinct |
