/** `private_grad`: per-example clipping of gradients to a global L2 norm, summation over the
    batch, Gaussian noise and normalisation by the configured batch size.

    A gradient is the list of its leaves in `tree_flatten` order, each leaf raveled into a vector
    of reals; the tree definition is implicit in that order, so `tree_unflatten` with the same
    tree definition is the identity on this representation.  Per-example gradients come from
    automatic differentiation and are inputs here, and so are their global norms: a norm is
    characterised by its square, since the model has no square root. */
module PrivateGradient {

  type Leaf = seq<real>
  type Grad = seq<Leaf>
  /** The element count of every leaf. */
  type Shape = seq<nat>

  predicate HasShape(g: Grad, s: Shape) {
    |g| == |s| && forall l :: 0 <= l < |g| ==> |g[l]| == s[l]
  }

  /** The squared L2 norm of one raveled leaf. */
  function SqLeaf(v: Leaf): (r: real)
    ensures r >= 0.0
  {
    if v == [] then 0.0 else v[0] * v[0] + SqLeaf(v[1..])
  }

  /** The squared global norm: the sum of the squared leaf norms. */
  function SqNorm(g: Grad): (r: real)
    ensures r >= 0.0
  {
    if g == [] then 0.0 else SqLeaf(g[0]) + SqNorm(g[1..])
  }

  /** `n` is the L2 norm of the vector `v`. */
  predicate IsVectorNorm(n: real, v: seq<real>) {
    n >= 0.0 && n * n == SqLeaf(v)
  }

  /** `n` is the global L2 norm of the gradient `g`. */
  predicate IsNorm(n: real, g: Grad) {
    n >= 0.0 && n * n == SqNorm(g)
  }

  /** All leaves of `g`, raveled and joined into one vector. */
  function Flatten(g: Grad): seq<real> {
    if g == [] then [] else g[0] + Flatten(g[1..])
  }

  lemma {:induction false} SqLeafAppend(a: Leaf, b: Leaf)
    ensures SqLeaf(a + b) == SqLeaf(a) + SqLeaf(b)
  {
    if a == [] {
      assert a + b == b;
    } else {
      assert (a + b)[0] == a[0] && (a + b)[1..] == a[1..] + b;
      SqLeafAppend(a[1..], b);
    }
  }

  lemma {:induction false} SqNormIsFlatSqNorm(g: Grad)
    ensures SqNorm(g) == SqLeaf(Flatten(g))
  {
    if g != [] {
      SqNormIsFlatSqNorm(g[1..]);
      SqLeafAppend(g[0], Flatten(g[1..]));
    }
  }

  lemma {:induction false} SqLeafOfLeafNorms(g: Grad, leafNorms: seq<real>)
    requires |leafNorms| == |g|
    requires forall l :: 0 <= l < |g| ==> IsVectorNorm(leafNorms[l], g[l])
    ensures SqLeaf(leafNorms) == SqNorm(g)
  {
    if g != [] {
      SqLeafOfLeafNorms(g[1..], leafNorms[1..]);
    }
  }

  /** `np.linalg.norm([np.linalg.norm(leaf.ravel()) for leaf in leaves])` is one global norm:
      the norm of the per-leaf norms is the norm of every component of every leaf taken as one
      vector, not a per-layer norm. */
  lemma NormOfLeafNorms(g: Grad, leafNorms: seq<real>, n: real)
    requires |leafNorms| == |g|
    requires forall l :: 0 <= l < |g| ==> IsVectorNorm(leafNorms[l], g[l])
    ensures IsVectorNorm(n, leafNorms) <==> IsNorm(n, g)
    ensures IsNorm(n, g) <==> IsVectorNorm(n, Flatten(g))
  {
    SqLeafOfLeafNorms(g, leafNorms);
    SqNormIsFlatSqNorm(g);
  }

  /** `np.amax((total_grad_norm / l2_norm_clip, 1.))`. */
  function Divisor(n: real, clip: real): (d: real)
    requires clip != 0.0
    ensures d >= 1.0 && d >= n / clip
    ensures d == 1.0 || d == n / clip
  {
    if n / clip >= 1.0 then n / clip else 1.0
  }

  function DivLeaf(v: Leaf, d: real): (r: Leaf)
    requires d != 0.0
    ensures |r| == |v|
  {
    seq(|v|, k requires 0 <= k < |v| => v[k] / d)
  }

  /** Every component of `g` divided by `d`, leaf by leaf. */
  function Div(g: Grad, d: real): (r: Grad)
    requires d != 0.0
    ensures |r| == |g| && forall l :: 0 <= l < |g| ==> |r[l]| == |g[l]|
  {
    seq(|g|, l requires 0 <= l < |g| => DivLeaf(g[l], d))
  }

  /** `_clipped_grad` after differentiation: every leaf divided by the one divisor computed
      from the global norm `n` of `g`.  The result has the same leaves, of the same lengths. */
  function Clip(g: Grad, n: real, clip: real): (r: Grad)
    requires clip != 0.0
    ensures |r| == |g| && forall l :: 0 <= l < |g| ==> |r[l]| == |g[l]|
  {
    Div(g, Divisor(n, clip))
  }

  /** Every component of `v` multiplied by `t`. */
  function ScaleLeaf(v: Leaf, t: real): (r: Leaf)
    ensures |r| == |v|
  {
    seq(|v|, k requires 0 <= k < |v| => v[k] * t)
  }

  /** Dividing by `d` is multiplying by its inverse `t`. */
  lemma DivLeafIsScale(v: Leaf, d: real, t: real)
    requires d != 0.0 && d * t == 1.0
    ensures DivLeaf(v, d) == ScaleLeaf(v, t)
  {
    forall k | 0 <= k < |v| ensures DivLeaf(v, d)[k] == ScaleLeaf(v, t)[k] {
      DivIsMulInverse(v[k], d, t);
    }
  }

  lemma DivIsMulInverse(x: real, d: real, t: real)
    requires d != 0.0 && d * t == 1.0
    ensures x / d == x * t
  {
    assert t == 1.0 / d;
    assert x / d == x * (1.0 / d);
  }

  lemma SquareOfProduct(x: real, t: real)
    ensures (x * t) * (x * t) == (x * x) * (t * t)
  {
  }

  lemma ScaledSum(a: real, b: real, c: real, e: real, u: real)
    requires a == c * u && b == e * u
    ensures a + b == (c + e) * u
  {
  }

  /** Scaling every component by `t` scales the squared norm by `t * t`. */
  lemma {:induction false} SqLeafScale(v: Leaf, t: real)
    ensures SqLeaf(ScaleLeaf(v, t)) == SqLeaf(v) * (t * t)
  {
    if v != [] {
      var w := ScaleLeaf(v, t);
      assert w[1..] == ScaleLeaf(v[1..], t) by {
        forall k | 0 <= k < |v| - 1 ensures w[1..][k] == ScaleLeaf(v[1..], t)[k] {
        }
      }
      SqLeafScale(v[1..], t);
      SquareOfProduct(v[0], t);
      ScaledSum(w[0] * w[0], SqLeaf(w[1..]), v[0] * v[0], SqLeaf(v[1..]), t * t);
    }
  }

  /** Dividing leaf by leaf and then flattening is dividing the flattened vector. */
  lemma {:induction false} FlattenDiv(g: Grad, d: real)
    requires d != 0.0
    ensures Flatten(Div(g, d)) == DivLeaf(Flatten(g), d)
  {
    if g != [] {
      FlattenDiv(g[1..], d);
      assert Div(g, d)[1..] == Div(g[1..], d);
      assert Div(g, d)[0] == DivLeaf(g[0], d);
      assert DivLeaf(g[0] + Flatten(g[1..]), d) == DivLeaf(g[0], d) + DivLeaf(Flatten(g[1..]), d);
    }
  }

  /** Dividing every component by `d` multiplies the squared global norm by `t * t`, for the
      inverse `t` of `d`. */
  lemma SqNormDiv(g: Grad, d: real, t: real)
    requires d != 0.0 && d * t == 1.0
    ensures SqNorm(Div(g, d)) == SqNorm(g) * (t * t)
  {
    calc {
      SqNorm(Div(g, d));
      { SqNormIsFlatSqNorm(Div(g, d)); }
      SqLeaf(Flatten(Div(g, d)));
      { FlattenDiv(g, d); DivLeafIsScale(Flatten(g), d, t); }
      SqLeaf(ScaleLeaf(Flatten(g), t));
      { SqLeafScale(Flatten(g), t); }
      SqLeaf(Flatten(g)) * (t * t);
      { SqNormIsFlatSqNorm(g); SameProduct(SqLeaf(Flatten(g)), SqNorm(g), t * t); }
      SqNorm(g) * (t * t);
    }
  }

  /** A gradient whose global norm is at most the clipping bound is left unchanged. */
  lemma ClipKeepsSmall(g: Grad, n: real, clip: real)
    requires clip > 0.0 && IsNorm(n, g) && n <= clip
    ensures Clip(g, n, clip) == g
  {
    assert n / clip <= 1.0;
    assert Divisor(n, clip) == 1.0;
    forall l | 0 <= l < |g| ensures DivLeaf(g[l], 1.0) == g[l] {
    }
  }

  lemma SameProduct(a: real, b: real, u: real)
    requires a == b
    ensures a * u == b * u
  {
  }

  lemma QuotientInverse(n: real, clip: real)
    requires n > 0.0 && clip > 0.0
    ensures (n / clip) * (clip / n) == 1.0
  {
  }

  /** A gradient whose global norm exceeds the bound is rescaled to norm exactly the bound. */
  lemma ClipRescalesLarge(g: Grad, n: real, clip: real)
    requires clip > 0.0 && IsNorm(n, g) && n > clip
    ensures SqNorm(Clip(g, n, clip)) == clip * clip
  {
    var d, t := n / clip, clip / n;
    calc {
      SqNorm(Clip(g, n, clip));
      { assert Divisor(n, clip) == d; }
      SqNorm(Div(g, d));
      { QuotientInverse(n, clip); SqNormDiv(g, d, t); }
      SqNorm(g) * (t * t);
      { SameProduct(SqNorm(g), n * n, t * t); }
      (n * n) * (t * t);
      { SquareOfProduct(n, t); }
      (n * t) * (n * t);
      { assert n * t == clip; }
      clip * clip;
    }
  }

  lemma SquareMonotone(a: real, b: real)
    requires 0.0 <= a <= b
    ensures a * a <= b * b
  {
    assert a * a <= a * b;
  }

  /** Either way, the clipped gradient's norm is at most the bound. */
  lemma ClipBounded(g: Grad, n: real, clip: real)
    requires clip > 0.0 && IsNorm(n, g)
    ensures SqNorm(Clip(g, n, clip)) <= clip * clip
  {
    if n <= clip {
      ClipKeepsSmall(g, n, clip);
      SquareMonotone(n, clip);
    } else {
      ClipRescalesLarge(g, n, clip);
    }
  }

  function Zeros(s: Shape): (r: Grad)
    ensures HasShape(r, s)
  {
    seq(|s|, l requires 0 <= l < |s| => seq(s[l], k => 0.0))
  }

  /** Component-wise sum of two gradients of one shape. */
  function Add(a: Grad, b: Grad): (r: Grad)
    requires |a| == |b| && forall l :: 0 <= l < |a| ==> |a[l]| == |b[l]|
    ensures |r| == |a| && forall l :: 0 <= l < |a| ==> |r[l]| == |a[l]|
  {
    seq(|a|, l requires 0 <= l < |a| =>
      seq(|a[l]|, k requires 0 <= k < |a[l]| => a[l][k] + b[l][k]))
  }

  predicate AllHaveShape(gs: seq<Grad>, s: Shape) {
    forall i :: 0 <= i < |gs| ==> HasShape(gs[i], s)
  }

  /** `tree_map(lambda n: np.sum(n, 0), ...)`: the per-example gradients summed over the batch,
      leaf by leaf; an empty batch sums to zeros of the parameters' shape. */
  function Sum(gs: seq<Grad>, s: Shape): (r: Grad)
    requires AllHaveShape(gs, s)
    ensures HasShape(r, s)
  {
    if gs == [] then Zeros(s) else Add(gs[0], Sum(gs[1..], s))
  }

  /** The per-example clipped gradients (`vmap` of `_clipped_grad` over the batch). */
  function Clipped(gs: seq<Grad>, norms: seq<real>, clip: real): (r: seq<Grad>)
    requires |norms| == |gs| && clip != 0.0
    ensures |r| == |gs|
  {
    seq(|gs|, i requires 0 <= i < |gs| => Clip(gs[i], norms[i], clip))
  }

  /** `random.normal(rng, n.shape)` for every leaf, with the one key `rng` for all leaves:
      `draw(m)` is the sample that key yields for a leaf of `m` elements. */
  function Noise(s: Shape, draw: nat -> seq<real>): (r: Grad)
    requires forall l :: 0 <= l < |s| ==> |draw(s[l])| == s[l]
    ensures HasShape(r, s)
  {
    seq(|s|, l requires 0 <= l < |s| => draw(s[l]))
  }

  /** `n + std_dev * z` component-wise. */
  function AddNoise(a: Grad, stdDev: real, z: Grad): (r: Grad)
    requires |a| == |z| && forall l :: 0 <= l < |a| ==> |a[l]| == |z[l]|
    ensures |r| == |a| && forall l :: 0 <= l < |a| ==> |r[l]| == |a[l]|
  {
    seq(|a|, l requires 0 <= l < |a| =>
      seq(|a[l]|, k requires 0 <= k < |a[l]| => a[l][k] + stdDev * z[l][k]))
  }

  /** `private_grad(params, batch, rng, l2_norm_clip, noise_multiplier, batch_size)` for
      parameters of shape `s`, given the batch's per-example gradients `gs` and their global
      norms: clip each, sum over the batch, add noise of standard deviation
      `l2_norm_clip * noise_multiplier`, divide by the configured batch size. */
  function PrivateGrad(s: Shape, gs: seq<Grad>, norms: seq<real>, clip: real,
                       noiseMultiplier: real, draw: nat -> seq<real>, batchSize: int): (r: Grad)
    requires clip != 0.0 && batchSize != 0
    requires |norms| == |gs| && AllHaveShape(gs, s)
    requires forall l :: 0 <= l < |s| ==> |draw(s[l])| == s[l]
    ensures HasShape(r, s)
  {
    var clipped := Clipped(gs, norms, clip);
    var summed := Sum(clipped, s);
    var noised := AddNoise(summed, clip * noiseMultiplier, Noise(s, draw));
    Div(noised, batchSize as real)
  }

  /** Leaf by leaf and component by component, the private gradient is
      (sum of the clipped per-example components + clip * sigma * noise) / batch_size. */
  lemma PrivateGradAt(s: Shape, gs: seq<Grad>, norms: seq<real>, clip: real,
                      noiseMultiplier: real, draw: nat -> seq<real>, batchSize: int, l: nat, k: nat)
    requires clip != 0.0 && batchSize != 0
    requires |norms| == |gs| && AllHaveShape(gs, s)
    requires forall l :: 0 <= l < |s| ==> |draw(s[l])| == s[l]
    requires l < |s| && k < s[l]
    ensures PrivateGrad(s, gs, norms, clip, noiseMultiplier, draw, batchSize)[l][k]
         == (Sum(Clipped(gs, norms, clip), s)[l][k] + clip * noiseMultiplier * draw(s[l])[k]) / batchSize as real
  {
  }

  /** Without noise the private gradient is the sum of the clipped gradients over batch_size. */
  lemma ZeroNoise(s: Shape, gs: seq<Grad>, norms: seq<real>, clip: real,
                  draw: nat -> seq<real>, batchSize: int)
    requires clip != 0.0 && batchSize != 0
    requires |norms| == |gs| && AllHaveShape(gs, s)
    requires forall l :: 0 <= l < |s| ==> |draw(s[l])| == s[l]
    ensures PrivateGrad(s, gs, norms, clip, 0.0, draw, batchSize)
         == Div(Sum(Clipped(gs, norms, clip), s), batchSize as real)
  {
    var summed := Sum(Clipped(gs, norms, clip), s);
    var noise := Noise(s, draw);
    forall l | 0 <= l < |summed| ensures AddNoise(summed, clip * 0.0, noise)[l] == summed[l] {
    }
    assert AddNoise(summed, clip * 0.0, noise) == summed;
  }

  /** When no example exceeds the bound and there is no noise, the private gradient is the plain
      sum of the per-example gradients over batch_size. */
  lemma NoClippingNoNoise(s: Shape, gs: seq<Grad>, norms: seq<real>, clip: real,
                          draw: nat -> seq<real>, batchSize: int)
    requires clip > 0.0 && batchSize != 0
    requires |norms| == |gs| && AllHaveShape(gs, s)
    requires forall l :: 0 <= l < |s| ==> |draw(s[l])| == s[l]
    requires forall i :: 0 <= i < |gs| ==> IsNorm(norms[i], gs[i]) && norms[i] <= clip
    ensures PrivateGrad(s, gs, norms, clip, 0.0, draw, batchSize) == Div(Sum(gs, s), batchSize as real)
  {
    forall i | 0 <= i < |gs| ensures Clipped(gs, norms, clip)[i] == gs[i] {
      ClipKeepsSmall(gs[i], norms[i], clip);
    }
    assert Clipped(gs, norms, clip) == gs;
    ZeroNoise(s, gs, norms, clip, draw, batchSize);
  }

  /** The batch without its `i`-th example. */
  function Without<T>(xs: seq<T>, i: nat): (r: seq<T>)
    requires i < |xs|
    ensures |r| == |xs| - 1
  {
    xs[..i] + xs[i + 1..]
  }

  lemma AddCommutes(a: Grad, b: Grad)
    requires |a| == |b| && forall l :: 0 <= l < |a| ==> |a[l]| == |b[l]|
    ensures Add(a, b) == Add(b, a)
  {
    forall l | 0 <= l < |a| ensures Add(a, b)[l] == Add(b, a)[l] {
    }
  }

  lemma AddAssociates(a: Grad, b: Grad, c: Grad)
    requires |a| == |b| == |c|
    requires forall l :: 0 <= l < |a| ==> |a[l]| == |b[l]| == |c[l]|
    ensures Add(a, Add(b, c)) == Add(Add(a, b), c)
  {
    forall l | 0 <= l < |a| ensures Add(a, Add(b, c))[l] == Add(Add(a, b), c)[l] {
    }
  }

  /** The batch sum is the sum of all the other examples plus example `i`, for every `i`. */
  lemma {:induction false} SumWithout(gs: seq<Grad>, s: Shape, i: nat)
    requires AllHaveShape(gs, s) && i < |gs|
    ensures AllHaveShape(Without(gs, i), s)
    ensures Sum(gs, s) == Add(Sum(Without(gs, i), s), gs[i])
  {
    assert AllHaveShape(Without(gs, i), s) by {
      forall j | 0 <= j < |gs| - 1 ensures HasShape(Without(gs, i)[j], s) {
        assert Without(gs, i)[j] == if j < i then gs[j] else gs[j + 1];
      }
    }
    if i == 0 {
      assert Without(gs, 0) == gs[1..];
      AddCommutes(gs[0], Sum(gs[1..], s));
    } else {
      SumWithout(gs[1..], s, i - 1);
      assert Without(gs, i) == [gs[0]] + Without(gs[1..], i - 1);
      assert Without(gs, i)[1..] == Without(gs[1..], i - 1);
      AddAssociates(gs[0], Sum(Without(gs[1..], i - 1), s), gs[i]);
    }
  }

  /** Sensitivity of the clipped sum, the quantity the Gaussian noise is calibrated to: removing
      any one example from the batch changes the aggregate by exactly that example's clipped
      gradient, whose norm is at most the clipping bound. */
  lemma Sensitivity(s: Shape, gs: seq<Grad>, norms: seq<real>, clip: real, i: nat)
    requires clip > 0.0 && |norms| == |gs| && AllHaveShape(gs, s) && i < |gs|
    requires forall j :: 0 <= j < |gs| ==> IsNorm(norms[j], gs[j])
    ensures AllHaveShape(Clipped(Without(gs, i), Without(norms, i), clip), s)
    ensures Sum(Clipped(gs, norms, clip), s)
         == Add(Sum(Clipped(Without(gs, i), Without(norms, i), clip), s), Clip(gs[i], norms[i], clip))
    ensures SqNorm(Clip(gs[i], norms[i], clip)) <= clip * clip
  {
    var cs := Clipped(gs, norms, clip);
    assert AllHaveShape(cs, s);
    assert Clipped(Without(gs, i), Without(norms, i), clip) == Without(cs, i);
    SumWithout(cs, s, i);
    ClipBounded(gs[i], norms[i], clip);
  }

  /** Leaves with the same number of elements receive the same noise, because one key serves
      every leaf. */
  lemma SharedNoiseKey(s: Shape, draw: nat -> seq<real>, l1: nat, l2: nat)
    requires forall l :: 0 <= l < |s| ==> |draw(s[l])| == s[l]
    requires l1 < |s| && l2 < |s| && s[l1] == s[l2]
    ensures Noise(s, draw)[l1] == Noise(s, draw)[l2]
  {
  }

  /** A batch of one-component gradients sums to the sum of its components. */
  lemma OneComponentSum(gs: seq<Grad>, total: real)
    requires AllHaveShape(gs, [1])
    requires gs == [] ==> total == 0.0
    requires gs != [] ==> Sum(gs[1..], [1]) == [[total - gs[0][0][0]]]
    ensures Sum(gs, [1]) == [[total]]
  {
    if gs == [] {
      assert Zeros([1])[0] == [0.0];
    } else {
      assert Add(gs[0], [[total - gs[0][0][0]]])[0] == [total];
    }
  }

  /** Two one-component examples with norms 3 and 0.5, bound 1, no noise and batch size 2:
      the divisors are 3 and 1, the clipped components 1 and 0.5, and the result their mean. */
  lemma TwoExampleScenario(draw: nat -> seq<real>)
    requires |draw(1)| == 1
    ensures Divisor(3.0, 1.0) == 3.0 && Divisor(0.5, 1.0) == 1.0
    ensures Clipped([[[3.0]], [[0.5]]], [3.0, 0.5], 1.0) == [[[1.0]], [[0.5]]]
    ensures PrivateGrad([1], [[[3.0]], [[0.5]]], [3.0, 0.5], 1.0, 0.0, draw, 2) == [[0.75]]
  {
    var gs: seq<Grad> := [[[3.0]], [[0.5]]];
    assert Clip([[3.0]], 3.0, 1.0) == [[1.0]] by {
      assert DivLeaf([3.0], 3.0) == [1.0];
    }
    assert Clip([[0.5]], 0.5, 1.0) == [[0.5]] by {
      assert DivLeaf([0.5], 1.0) == [0.5];
    }
    var cs := Clipped(gs, [3.0, 0.5], 1.0);
    assert cs == [[[1.0]], [[0.5]]];
    OneComponentSum([], 0.0);
    OneComponentSum([[[0.5]]], 0.5);
    OneComponentSum(cs, 1.5);
    ZeroNoise([1], gs, [3.0, 0.5], 1.0, draw, 2);
    assert DivLeaf([1.5], 2.0) == [0.75];
  }

  /** A short batch is still divided by the configured batch size, not by its own length: one
      example of norm 0.5 under batch size 2 contributes half of its gradient. */
  lemma ShortBatch(draw: nat -> seq<real>)
    requires |draw(1)| == 1
    ensures PrivateGrad([1], [[[0.5]]], [0.5], 1.0, 0.0, draw, 2) == [[0.25]]
  {
    var gs: seq<Grad> := [[[0.5]]];
    assert Clip([[0.5]], 0.5, 1.0) == [[0.5]] by {
      assert DivLeaf([0.5], 1.0) == [0.5];
    }
    var cs := Clipped(gs, [0.5], 1.0);
    assert cs == [[[0.5]]];
    OneComponentSum([], 0.0);
    OneComponentSum(cs, 0.5);
    ZeroNoise([1], gs, [0.5], 1.0, draw, 2);
    assert DivLeaf([0.5], 2.0) == [0.25];
  }
}
