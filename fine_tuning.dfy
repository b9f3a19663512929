/** The fine-tuning loop at the end of `main`: `epochs` passes over the picked examples, each of
    `num_batches` updates, the optimiser state threaded from one update to the next.  The
    optimiser, the gradients and the key derivation are given as functions; the batches come
    from the minibatcher, which is given as the batch it yields at each step of each epoch. */
module FineTuning {
  import opened Sequences
  import opened Batching

  /** The pieces of `update` and `private_update`.  `gradLoss(s, b)` is `grad_loss` at the
      parameters of state `s`, and `privateGrad(s, b, rng)` is `private_grad` at those parameters
      with the configured clipping bound, noise multiplier and batch size. */
  datatype Trainer<!S, !K, !B, !G> = Trainer(
    optUpdate: (nat, G, S) -> S,
    gradLoss: (S, B) -> G,
    privateGrad: (S, B, K) -> G,
    foldIn: (K, nat) -> K)

  /** One call of `private_update(key, i, opt_state, batch)` when `dpsgd` is set, of
      `update(key, i, opt_state, batch)` otherwise. */
  function Update<S, K, B, G>(t: Trainer<S, K, B, G>, dpsgd: bool, key: K, i: nat, s: S, b: B): (r: S) {
    if dpsgd then t.optUpdate(i, t.privateGrad(s, b, t.foldIn(key, i)), s)
    else t.optUpdate(i, t.gradLoss(s, b), s)
  }

  /** The counter value `next(itercount)` yields at step `j` of epoch `e` (both from 0), with
      `nb` steps per epoch: restarted every epoch, or counting on across epochs. */
  function StepIndex(nb: nat, e: nat, j: nat, restart: bool): (i: nat) {
    if restart then j else e * nb + j
  }

  /** The key `fold_in` derives for the noise of that step. */
  function StepKey<S, K, B, G>(t: Trainer<S, K, B, G>, key: K, nb: nat, e: nat, j: nat, restart: bool): (r: K) {
    t.foldIn(key, StepIndex(nb, e, j, restart))
  }

  /** The state after the first `m` updates of epoch `e`, started from `s`. */
  function EpochSteps<S, K, B, G>(t: Trainer<S, K, B, G>, dpsgd: bool, key: K, batchAt: (nat, nat) -> B,
                                  nb: nat, e: nat, restart: bool, s: S, m: nat): (r: S)
  {
    if m == 0 then s
    else
      var before := EpochSteps(t, dpsgd, key, batchAt, nb, e, restart, s, m - 1);
      Update(t, dpsgd, key, StepIndex(nb, e, m - 1, restart), before, batchAt(e, m - 1))
  }

  /** The state after `k` full epochs of `nb` updates each, started from `s`. */
  function Trained<S, K, B, G>(t: Trainer<S, K, B, G>, dpsgd: bool, key: K, batchAt: (nat, nat) -> B,
                               nb: nat, restart: bool, s: S, k: nat): (r: S)
  {
    if k == 0 then s
    else EpochSteps(t, dpsgd, key, batchAt, nb, k - 1, restart, Trained(t, dpsgd, key, batchAt, nb, restart, s, k - 1), nb)
  }

  /** Lines 346-374 of `main`.  Besides the final optimiser state it returns, epoch by epoch, the
      noise key `fold_in(key, i)` of every update; `itercount` and `key` are created afresh at the
      start of every epoch, as the loop body does.  The keys are recorded whether or not `dpsgd`
      is set, although without it the source derives none: they are the keys the private update
      would use. */
  method FineTune<S, K, B, G>(t: Trainer<S, K, B, G>, dpsgd: bool, seedKey: K, batchAt: (nat, nat) -> B,
                              s0: S, numExtra: nat, batchSize: int, epochs: int)
    returns (s: S, keys: seq<seq<K>>)
    requires batchSize > 0
    ensures s == Trained(t, dpsgd, seedKey, batchAt, NumBatches(numExtra, batchSize), true, s0, Max(epochs, 0))
    ensures |keys| == Max(epochs, 0)
    ensures forall e :: 0 <= e < |keys| ==> |keys[e]| == NumBatches(numExtra, batchSize)
    ensures forall e, j :: 0 <= e < |keys| && 0 <= j < |keys[e]| ==>
      keys[e][j] == StepKey(t, seedKey, NumBatches(numExtra, batchSize), e, j, true)
  {
    ghost var nb := NumBatches(numExtra, batchSize);
    s, keys := s0, [];
    var epoch := 1;
    while epoch <= epochs
      invariant 1 <= epoch <= Max(epochs, 0) + 1
      invariant s == Trained(t, dpsgd, seedKey, batchAt, nb, true, s0, epoch - 1)
      invariant |keys| == epoch - 1
      invariant forall e :: 0 <= e < |keys| ==> |keys[e]| == nb
      invariant forall e, j :: 0 <= e < |keys| && 0 <= j < |keys[e]| ==> keys[e][j] == StepKey(t, seedKey, nb, e, j, true)
    {
      var numCompleteBatches, leftover := numExtra / batchSize, numExtra % batchSize;
      var numBatches := numCompleteBatches + if leftover != 0 then 1 else 0;
      var itercount := 0;
      var key := seedKey;
      ghost var start := s;
      var used := [];
      var b := 0;
      while b < numBatches
        invariant b <= numBatches && itercount == b && |used| == b
        invariant s == EpochSteps(t, dpsgd, key, batchAt, nb, epoch - 1, true, start, b)
        invariant forall j :: 0 <= j < b ==> used[j] == StepKey(t, seedKey, nb, epoch - 1, j, true)
      {
        var batch := batchAt(epoch - 1, b);
        var i := itercount;
        itercount := itercount + 1;
        used := used + [t.foldIn(key, i)];
        s := Update(t, dpsgd, key, i, s, batch);
        b := b + 1;
      }
      keys := keys + [used];
      epoch := epoch + 1;
    }
  }

  /** The loop with `itercount` and `key` created once, before the first epoch, so that the
      counter runs on across epochs. */
  method FineTuneOneCounter<S, K, B, G>(t: Trainer<S, K, B, G>, dpsgd: bool, seedKey: K, batchAt: (nat, nat) -> B,
                                        s0: S, numExtra: nat, batchSize: int, epochs: int)
    returns (s: S, keys: seq<seq<K>>)
    requires batchSize > 0
    ensures s == Trained(t, dpsgd, seedKey, batchAt, NumBatches(numExtra, batchSize), false, s0, Max(epochs, 0))
    ensures |keys| == Max(epochs, 0)
    ensures forall e :: 0 <= e < |keys| ==> |keys[e]| == NumBatches(numExtra, batchSize)
    ensures forall e, j :: 0 <= e < |keys| && 0 <= j < |keys[e]| ==>
      keys[e][j] == StepKey(t, seedKey, NumBatches(numExtra, batchSize), e, j, false)
  {
    ghost var nb := NumBatches(numExtra, batchSize);
    s, keys := s0, [];
    var itercount := 0;
    var key := seedKey;
    var epoch := 1;
    while epoch <= epochs
      invariant 1 <= epoch <= Max(epochs, 0) + 1
      invariant itercount == (epoch - 1) * nb
      invariant s == Trained(t, dpsgd, seedKey, batchAt, nb, false, s0, epoch - 1)
      invariant |keys| == epoch - 1
      invariant forall e :: 0 <= e < |keys| ==> |keys[e]| == nb
      invariant forall e, j :: 0 <= e < |keys| && 0 <= j < |keys[e]| ==> keys[e][j] == StepKey(t, seedKey, nb, e, j, false)
    {
      var numCompleteBatches, leftover := numExtra / batchSize, numExtra % batchSize;
      var numBatches := numCompleteBatches + if leftover != 0 then 1 else 0;
      assert numBatches == nb;
      ghost var start := s;
      var used := [];
      var b := 0;
      while b < numBatches
        invariant b <= numBatches && itercount == (epoch - 1) * nb + b && |used| == b
        invariant s == EpochSteps(t, dpsgd, key, batchAt, nb, epoch - 1, false, start, b)
        invariant forall j :: 0 <= j < b ==> used[j] == StepKey(t, seedKey, nb, epoch - 1, j, false)
      {
        var batch := batchAt(epoch - 1, b);
        var i := itercount;
        itercount := itercount + 1;
        assert i == StepIndex(nb, epoch - 1, b, false);
        used := used + [t.foldIn(key, i)];
        s := Update(t, dpsgd, key, i, s, batch);
        b := b + 1;
      }
      assert itercount == epoch * nb;
      keys := keys + [used];
      epoch := epoch + 1;
    }
  }

  /** As written, two epochs over exactly one batch draw their noise from the same key: the
      first update of the second epoch reuses the key of the first update of the first. */
  lemma RestartReusesNoiseKey<S, K, B, G>(t: Trainer<S, K, B, G>, key: K, batchSize: int)
    requires batchSize > 0
    ensures NumBatches(batchSize, batchSize) == 1
    ensures StepKey(t, key, NumBatches(batchSize, batchSize), 0, 0, true)
         == StepKey(t, key, NumBatches(batchSize, batchSize), 1, 0, true)
    ensures StepIndex(1, 0, 0, false) != StepIndex(1, 1, 0, false)
  {
    DivModUnique(batchSize, batchSize, 1, 0);
  }

  /** With one counter, no two updates of a run share a step index. */
  lemma OneCounterIndicesDistinct(nb: nat, e1: nat, j1: nat, e2: nat, j2: nat)
    requires j1 < nb && j2 < nb
    requires StepIndex(nb, e1, j1, false) == StepIndex(nb, e2, j2, false)
    ensures e1 == e2 && j1 == j2
  {
    if e1 != e2 {
      var lo, hi := Min(e1, e2), Max(e1, e2);
      assert hi * nb == lo * nb + (hi - lo) * nb;
      AtLeastOneMultiple(hi - lo, nb);
    }
  }

  /** ... and so, for a key derivation that is injective in the counter, no two updates of a run
      share a noise key. */
  lemma OneCounterKeysDistinct<S, K, B, G>(t: Trainer<S, K, B, G>, key: K, nb: nat, e1: nat, j1: nat, e2: nat, j2: nat)
    requires forall i1: nat, i2: nat :: t.foldIn(key, i1) == t.foldIn(key, i2) ==> i1 == i2
    requires j1 < nb && j2 < nb && (e1 != e2 || j1 != j2)
    ensures StepKey(t, key, nb, e1, j1, false) != StepKey(t, key, nb, e2, j2, false)
  {
    if StepKey(t, key, nb, e1, j1, false) == StepKey(t, key, nb, e2, j2, false) {
      OneCounterIndicesDistinct(nb, e1, j1, e2, j2);
    }
  }

  /** One epoch runs the same updates under either counter when the step passed to the optimiser
      does not matter and no noise is drawn. */
  lemma {:induction false} EpochStepsIgnoreCounter<S, K, B, G>(t: Trainer<S, K, B, G>, key: K, batchAt: (nat, nat) -> B,
                                                               nb: nat, e: nat, s: S, m: nat)
    requires forall i1: nat, i2: nat, g: G, x: S :: t.optUpdate(i1, g, x) == t.optUpdate(i2, g, x)
    ensures EpochSteps(t, false, key, batchAt, nb, e, true, s, m) == EpochSteps(t, false, key, batchAt, nb, e, false, s, m)
  {
    if m > 0 {
      EpochStepsIgnoreCounter(t, key, batchAt, nb, e, s, m - 1);
      var before := EpochSteps(t, false, key, batchAt, nb, e, true, s, m - 1);
      var g := t.gradLoss(before, batchAt(e, m - 1));
      SameUpdate(t, StepIndex(nb, e, m - 1, true), StepIndex(nb, e, m - 1, false), g, before);
    }
  }

  lemma SameUpdate<S, K, B, G>(t: Trainer<S, K, B, G>, i1: nat, i2: nat, g: G, x: S)
    requires forall i1: nat, i2: nat, g: G, x: S :: t.optUpdate(i1, g, x) == t.optUpdate(i2, g, x)
    ensures t.optUpdate(i1, g, x) == t.optUpdate(i2, g, x)
  {
  }

  /** Resetting the counter every epoch is harmless for non-private training with an optimiser
      whose update does not depend on the step (plain SGD at a fixed rate): both loops reach the
      same state.  Only the private updates, through their noise keys, see the reset. */
  lemma {:induction false} RestartHarmlessWithoutNoise<S, K, B, G>(t: Trainer<S, K, B, G>, key: K, batchAt: (nat, nat) -> B,
                                                                   nb: nat, s: S, k: nat)
    requires forall i1: nat, i2: nat, g: G, x: S :: t.optUpdate(i1, g, x) == t.optUpdate(i2, g, x)
    ensures Trained(t, false, key, batchAt, nb, true, s, k) == Trained(t, false, key, batchAt, nb, false, s, k)
  {
    if k > 0 {
      RestartHarmlessWithoutNoise(t, key, batchAt, nb, s, k - 1);
      EpochStepsIgnoreCounter(t, key, batchAt, nb, k - 1, Trained(t, false, key, batchAt, nb, true, s, k - 1), nb);
    }
  }
}
