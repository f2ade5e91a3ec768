/**
  * The simulated adversarial perturbation of attacks.py (`apply_attack`).
  *
  * The pixels are scaled into [0, 1], a noise grid is added, the sum is
  * clipped back into [0, 1] and rescaled to 8 bits by truncation. The
  * "FGSM" and "PGD" modes borrow the names of the gradient attacks but use no
  * model and no gradient: their "gradient" is the sign of uniform random
  * draws. The random source is a parameter here: `draws` holds the sign grids
  * it yields, one per draw, in the order the source consumes them.
  */
module Attacks {
  import opened Grids

  /** The value of `np.sign` on a uniform draw from [-1, 1]. */
  type Sign = s: int | -1 <= s <= 1

  /** Iterations of the "PGD" loop. */
  const PgdIterations: nat := 10

  /** Per-iteration step of the "PGD" loop. */
  function Alpha(strength: real): real { strength / 10.0 }

  /** Radius of the ball the "PGD" noise is clipped to. */
  function Epsilon(strength: real): real { strength / 255.0 }

  /** `np.clip(x, lo, hi)`, i.e. `min(max(x, lo), hi)`; when `lo > hi` every value becomes `hi`. */
  function Clip(x: real, lo: real, hi: real): (r: real)
    ensures lo <= hi ==> lo <= r <= hi
    ensures lo <= x <= hi ==> r == x
    ensures hi < lo ==> r == hi
  {
    var m := if x < lo then lo else x;
    if m > hi then hi else m
  }

  lemma ClipMonotone(x: real, y: real, lo: real, hi: real)
    requires x <= y
    ensures Clip(x, lo, hi) <= Clip(y, lo, hi)
  {
  }

  /** Clipping twice into the same bounds is clipping once, whatever the bounds. */
  lemma ClipIdempotent(x: real, lo: real, hi: real)
    ensures Clip(Clip(x, lo, hi), lo, hi) == Clip(x, lo, hi)
  {
  }

  /** A channel value scaled into [0, 1] (`astype(np.float32) / 255.0`). */
  function Normalize(v: int): (r: real)
    ensures IsByte(v) ==> 0.0 <= r <= 1.0
    ensures r * 255.0 == v as real
  {
    v as real / 255.0
  }

  /** `np.clip(x, 0, 1) * 255.0` followed by the truncating cast to `np.uint8`. */
  function ToByte(x: real): (r: int)
    ensures IsByte(r)
    ensures x <= 0.0 ==> r == 0
    ensures x >= 1.0 ==> r == 255
    ensures 0.0 <= x <= 1.0 ==> r as real <= x * 255.0 < r as real + 1.0
  {
    (Clip(x, 0.0, 1.0) * 255.0).Floor
  }

  /** Scaling a byte into [0, 1] and back returns it exactly (over the reals). */
  lemma ByteRoundTrip(v: int)
    requires IsByte(v)
    ensures ToByte(Normalize(v)) == v
  {
    assert Clip(Normalize(v), 0.0, 1.0) * 255.0 == v as real;
  }

  /** Non-negative noise never darkens a channel, non-positive noise never brightens it. */
  lemma NoiseDirection(v: int, n: real)
    requires IsByte(v)
    ensures n >= 0.0 ==> ToByte(Normalize(v) + n) >= v
    ensures n <= 0.0 ==> ToByte(Normalize(v) + n) <= v
  {
    ByteRoundTrip(v);
    if n >= 0.0 {
      ClipMonotone(Normalize(v), Normalize(v) + n, 0.0, 1.0);
    } else {
      ClipMonotone(Normalize(v) + n, Normalize(v), 0.0, 1.0);
    }
  }

  /** Noise at most `s / 255` in magnitude moves a channel by at most `s`, plus under 1 lost to truncation. */
  lemma NoiseMovesAtMost(v: int, n: real, s: real)
    requires IsByte(v)
    requires -(s / 255.0) <= n <= s / 255.0
    ensures v as real - s - 1.0 < ToByte(Normalize(v) + n) as real <= v as real + s
  {
    var x := Normalize(v) + n;
    var y := Clip(x, 0.0, 1.0) * 255.0;
    assert x * 255.0 == v as real + n * 255.0;
    assert v as real - s <= y <= v as real + s;
  }

  /** The array the noise is added to (attacks.py line 38). */
  function Normalized(img: Grid<int>): (r: Grid<real>)
    ensures SameShape(img, r)
    ensures forall i, j, k :: 0 <= i < |img| && 0 <= j < |img[i]| && 0 <= k < |img[i][j]| ==> r[i][j][k] * 255.0 == img[i][j][k] as real
  {
    Map(img, Normalize)
  }

  /** The noise of the "None" and of any unrecognised mode: nothing is added. */
  function Zeros(img: Grid<int>): (r: Grid<real>)
    ensures SameShape(img, r) && AllZero(r)
  {
    Map(img, (_: int) => 0.0)
  }

  /** The "FGSM" noise: `strength * sign / 255.0` for each drawn sign. */
  function FgsmNoise(signs: Grid<Sign>, strength: real): (r: Grid<real>)
    ensures SameShape(signs, r)
    ensures forall i, j, k :: 0 <= i < |signs| && 0 <= j < |signs[i]| && 0 <= k < |signs[i][j]| ==>
      r[i][j][k] == Epsilon(strength) * signs[i][j][k] as real
  {
    Map(signs, (s: Sign) => strength * s as real / 255.0)
  }

  /** Element-wise `np.clip(g, lo, hi)`. */
  function ClipAll(g: Grid<real>, lo: real, hi: real): (r: Grid<real>)
    ensures SameShape(g, r)
    ensures forall i, j, k :: 0 <= i < |g| && 0 <= j < |g[i]| && 0 <= k < |g[i][j]| ==> r[i][j][k] == Clip(g[i][j][k], lo, hi)
  {
    Map(g, (x: real) => Clip(x, lo, hi))
  }

  /** One iteration of the "PGD" loop on one entry: `np.clip(noise + alpha * sign, -epsilon, epsilon)`. */
  function PgdUpdate(n: real, s: Sign, alpha: real, epsilon: real): real {
    Clip(n + alpha * s as real, -epsilon, epsilon)
  }

  /** One iteration of the "PGD" loop on the whole noise grid. */
  function PgdStep(noise: Grid<real>, signs: Grid<Sign>, alpha: real, epsilon: real): (r: Grid<real>)
    requires SameShape(noise, signs)
    ensures SameShape(noise, r)
    ensures forall i, j, k :: 0 <= i < |noise| && 0 <= j < |noise[i]| && 0 <= k < |noise[i][j]| ==>
      r[i][j][k] == PgdUpdate(noise[i][j][k], signs[i][j][k], alpha, epsilon)
  {
    Zip(noise, signs, (n: real, s: Sign) => PgdUpdate(n, s, alpha, epsilon))
  }

  /** The random source yields one sign grid of the image's shape per draw, and the "PGD" loop draws ten. */
  predicate DrawsFit(img: Grid<int>, draws: seq<Grid<Sign>>) {
    |draws| == PgdIterations && forall t :: 0 <= t < |draws| ==> SameShape(img, draws[t])
  }

  /** The "PGD" noise after `n` iterations of the loop, starting from `np.zeros_like`. */
  function PgdAfter(img: Grid<int>, draws: seq<Grid<Sign>>, strength: real, n: nat): (r: Grid<real>)
    requires DrawsFit(img, draws) && n <= PgdIterations
    ensures SameShape(img, r)
  {
    if n == 0 then Zeros(img)
    else PgdStep(PgdAfter(img, draws, strength, n - 1), draws[n - 1], Alpha(strength), Epsilon(strength))
  }

  /** The noise `apply_attack` adds for a mode, a strength and the draws of the random source. */
  function AttackNoise(img: Grid<int>, attackType: string, strength: real, draws: seq<Grid<Sign>>): (r: Grid<real>)
    requires DrawsFit(img, draws)
    ensures SameShape(img, r)
  {
    if attackType == "None" then Zeros(img)
    else if attackType == "FGSM" then FgsmNoise(draws[0], strength)
    else if attackType == "PGD" then
      ClipAll(PgdAfter(img, draws, strength, PgdIterations), -Epsilon(strength), Epsilon(strength))
    else Zeros(img)
  }

  /** Attacks.py lines 58-59: clip the sum into [0, 1], rescale to 0..255 and truncate to `uint8`. */
  function Perturb(x: Grid<real>, noise: Grid<real>): (r: Grid<int>)
    requires SameShape(x, noise)
    ensures SameShape(x, r)
    ensures forall i, j, k :: 0 <= i < |r| && 0 <= j < |r[i]| && 0 <= k < |r[i][j]| ==> IsByte(r[i][j][k])
  {
    Zip(x, noise, (v: real, n: real) => ToByte(v + n))
  }

  /** The image `apply_attack` returns. */
  function Attack(img: Grid<int>, attackType: string, strength: real, draws: seq<Grid<Sign>>): Grid<int>
    requires DrawsFit(img, draws)
  {
    Perturb(Normalized(img), AttackNoise(img, attackType, strength, draws))
  }

  // The "PGD" loop, one entry at a time.

  /** The signs drawn for entry (i, j, k) in the first `n` draws (0 where a draw has no such entry, which `DrawsFit` rules out). */
  function History(draws: seq<Grid<Sign>>, n: nat, i: nat, j: nat, k: nat): (h: seq<Sign>)
    requires n <= |draws|
    ensures |h| == n
  {
    seq(n, t requires 0 <= t < n => if i < |draws[t]| && j < |draws[t][i]| && k < |draws[t][i][j]| then draws[t][i][j][k] else 0)
  }

  /** The value one noise entry takes after the loop has consumed the signs `hist`. */
  function PgdEntry(hist: seq<Sign>, strength: real): real {
    if hist == [] then 0.0
    else PgdUpdate(PgdEntry(hist[..|hist| - 1], strength), hist[|hist| - 1], Alpha(strength), Epsilon(strength))
  }

  /** `e * s` for a sign `s`, written by cases. */
  function SignScaled(s: Sign, e: real): (r: real)
    ensures r == e * s as real
  {
    if s == 1 then e else if s == -1 then -e else 0.0
  }

  /** The last non-zero sign of `hist`, or 0 when every sign is 0. */
  function LastNonZero(hist: seq<Sign>): Sign {
    if hist == [] then 0
    else if hist[|hist| - 1] != 0 then hist[|hist| - 1]
    else LastNonZero(hist[..|hist| - 1])
  }

  /** The grid fold and the per-entry fold agree: entry (i, j, k) only ever sees its own signs. */
  lemma {:induction false} PgdAfterEntry(img: Grid<int>, draws: seq<Grid<Sign>>, strength: real, n: nat, i: nat, j: nat, k: nat)
    requires DrawsFit(img, draws) && n <= PgdIterations
    requires i < |img| && j < |img[i]| && k < |img[i][j]|
    ensures PgdAfter(img, draws, strength, n)[i][j][k] == PgdEntry(History(draws, n, i, j, k), strength)
  {
    if n > 0 {
      var hist := History(draws, n, i, j, k);
      PgdAfterEntry(img, draws, strength, n - 1, i, j, k);
      assert hist[..n - 1] == History(draws, n - 1, i, j, k);
    }
  }

  /** For a non-negative strength every entry stays in [-epsilon, epsilon]: the loop invariant. */
  lemma PgdEntryBounded(hist: seq<Sign>, strength: real)
    requires strength >= 0.0
    ensures -Epsilon(strength) <= PgdEntry(hist, strength) <= Epsilon(strength)
  {
  }

  /**
    * Since `alpha = strength / 10` is more than twice `epsilon = strength / 255`,
    * every non-zero sign drives its entry to the edge of the ball: the final
    * value is epsilon times the last non-zero sign drawn, or 0.
    */
  lemma {:induction false} PgdEntrySaturates(hist: seq<Sign>, strength: real)
    requires strength > 0.0
    ensures PgdEntry(hist, strength) == SignScaled(LastNonZero(hist), Epsilon(strength))
  {
    if hist != [] {
      var prefix := hist[..|hist| - 1];
      var last := hist[|hist| - 1];
      var prev := PgdEntry(prefix, strength);
      var a, e := Alpha(strength), Epsilon(strength);
      assert PgdEntry(hist, strength) == Clip(prev + a * last as real, -e, e);
      PgdEntrySaturates(prefix, strength);
      PgdEntryBounded(prefix, strength);
      assert a >= 2.0 * e;
      if last == 1 {
        assert a * last as real == a;
      } else if last == -1 {
        assert a * last as real == -a;
      } else {
        assert a * last as real == 0.0;
      }
    }
  }

  /** An unvalidated negative strength inverts the clip bounds, so every entry becomes `epsilon < 0`. */
  lemma PgdEntryNegativeStrength(hist: seq<Sign>, strength: real)
    requires strength < 0.0 && hist != []
    ensures PgdEntry(hist, strength) == Epsilon(strength)
  {
  }

  /** The clip after the loop changes nothing once the loop has run at least once. */
  lemma FinalClipUnchanged(img: Grid<int>, draws: seq<Grid<Sign>>, strength: real)
    requires DrawsFit(img, draws)
    ensures ClipAll(PgdAfter(img, draws, strength, PgdIterations), -Epsilon(strength), Epsilon(strength))
         == PgdAfter(img, draws, strength, PgdIterations)
  {
    var g := PgdAfter(img, draws, strength, PgdIterations);
    var c := ClipAll(g, -Epsilon(strength), Epsilon(strength));
    forall i, j, k | 0 <= i < |g| && 0 <= j < |g[i]| && 0 <= k < |g[i][j]| ensures c[i][j][k] == g[i][j][k] {
      var prev := PgdAfter(img, draws, strength, PgdIterations - 1);
      var x := prev[i][j][k] + Alpha(strength) * draws[PgdIterations - 1][i][j][k] as real;
      assert g[i][j][k] == Clip(x, -Epsilon(strength), Epsilon(strength));
      ClipIdempotent(x, -Epsilon(strength), Epsilon(strength));
    }
    Extensionality(c, g);
  }

  /** One more iteration of the fold: the draw fits the noise so far, and the step extends it. */
  lemma PgdAfterNext(img: Grid<int>, draws: seq<Grid<Sign>>, strength: real, t: nat)
    requires DrawsFit(img, draws) && t < PgdIterations
    ensures SameShape(PgdAfter(img, draws, strength, t), draws[t])
    ensures PgdAfter(img, draws, strength, t + 1)
         == PgdStep(PgdAfter(img, draws, strength, t), draws[t], Alpha(strength), Epsilon(strength))
  {
  }

  /** The "PGD" branch (attacks.py lines 48-54), with the random source given as `draws`. */
  method PgdNoise(img: Grid<int>, strength: real, draws: seq<Grid<Sign>>) returns (noise: Grid<real>)
    requires DrawsFit(img, draws)
    ensures noise == PgdAfter(img, draws, strength, PgdIterations)
  {
    var alpha := Alpha(strength);
    var epsilon := Epsilon(strength);
    noise := Zeros(img);
    for t := 0 to PgdIterations
      invariant noise == PgdAfter(img, draws, strength, t)
    {
      PgdAfterNext(img, draws, strength, t);
      noise := PgdStep(noise, draws[t], alpha, epsilon);
    }
    noise := ClipAll(noise, -epsilon, epsilon);
    FinalClipUnchanged(img, draws, strength);
  }

  /** For a non-negative strength the noise the loop leaves lies in [-epsilon, epsilon] everywhere. */
  lemma PgdNoiseBounded(img: Grid<int>, draws: seq<Grid<Sign>>, strength: real)
    requires DrawsFit(img, draws) && strength >= 0.0
    ensures forall i, j, k :: 0 <= i < |img| && 0 <= j < |img[i]| && 0 <= k < |img[i][j]| ==>
      -Epsilon(strength) <= PgdAfter(img, draws, strength, PgdIterations)[i][j][k] <= Epsilon(strength)
  {
    forall i, j, k | 0 <= i < |img| && 0 <= j < |img[i]| && 0 <= k < |img[i][j]|
      ensures -Epsilon(strength) <= PgdAfter(img, draws, strength, PgdIterations)[i][j][k] <= Epsilon(strength)
    {
      PgdAfterEntry(img, draws, strength, PgdIterations, i, j, k);
      PgdEntryBounded(History(draws, PgdIterations, i, j, k), strength);
    }
  }

  /** For a positive strength each entry of the noise the loop leaves is epsilon times its last non-zero sign. */
  lemma PgdNoiseSaturated(img: Grid<int>, draws: seq<Grid<Sign>>, strength: real)
    requires DrawsFit(img, draws) && strength > 0.0
    ensures forall i, j, k :: 0 <= i < |img| && 0 <= j < |img[i]| && 0 <= k < |img[i][j]| ==>
      PgdAfter(img, draws, strength, PgdIterations)[i][j][k] == SignScaled(LastNonZero(History(draws, PgdIterations, i, j, k)), Epsilon(strength))
  {
    forall i, j, k | 0 <= i < |img| && 0 <= j < |img[i]| && 0 <= k < |img[i][j]|
      ensures PgdAfter(img, draws, strength, PgdIterations)[i][j][k] == SignScaled(LastNonZero(History(draws, PgdIterations, i, j, k)), Epsilon(strength))
    {
      PgdAfterEntry(img, draws, strength, PgdIterations, i, j, k);
      PgdEntrySaturates(History(draws, PgdIterations, i, j, k), strength);
    }
  }

  /** `apply_attack(image, attack_type, strength)`, with the random source given as `draws`. */
  method ApplyAttack(img: Grid<int>, attackType: string, strength: real, draws: seq<Grid<Sign>>) returns (attacked: Grid<int>)
    requires IsImage(img) && DrawsFit(img, draws)
    ensures attacked == Attack(img, attackType, strength, draws)
    ensures SameShape(img, attacked) && IsImage(attacked)
  {
    var x := Normalized(img);
    var noise: Grid<real>;
    if attackType == "None" {
      noise := Zeros(img);
    } else if attackType == "FGSM" {
      noise := FgsmNoise(draws[0], strength);
    } else if attackType == "PGD" {
      noise := PgdNoise(img, strength, draws);
      FinalClipUnchanged(img, draws, strength);
    } else {
      noise := Zeros(img);
    }
    attacked := Perturb(x, noise);
    PerturbKeepsImage(img, noise);
  }

  // Properties of the whole attack.

  /** The output has the input's dimensions and channel count and only 8-bit values. */
  lemma PerturbKeepsImage(img: Grid<int>, noise: Grid<real>)
    requires IsImage(img) && SameShape(img, noise)
    ensures SameShape(img, Perturb(Normalized(img), noise))
    ensures IsImage(Perturb(Normalized(img), noise))
  {
    var r := Perturb(Normalized(img), noise);
    SameShapeKeepsRectangular(img, r);
  }

  /** Zero noise returns the input exactly (over the reals; see README). */
  lemma ZeroNoiseKeepsImage(img: Grid<int>, noise: Grid<real>)
    requires IsImage(img) && SameShape(img, noise) && AllZero(noise)
    ensures Perturb(Normalized(img), noise) == img
  {
    var r := Perturb(Normalized(img), noise);
    forall i, j, k | 0 <= i < |img| && 0 <= j < |img[i]| && 0 <= k < |img[i][j]| ensures r[i][j][k] == img[i][j][k] {
      ByteRoundTrip(img[i][j][k]);
    }
    Extensionality(r, img);
  }

  /** "None" and every unrecognised mode leave the image unchanged. */
  lemma UnperturbedModes(img: Grid<int>, attackType: string, strength: real, draws: seq<Grid<Sign>>)
    requires IsImage(img) && DrawsFit(img, draws)
    requires attackType != "FGSM" && attackType != "PGD"
    ensures Attack(img, attackType, strength, draws) == img
  {
    ZeroNoiseKeepsImage(img, AttackNoise(img, attackType, strength, draws));
  }

  /** With strength 0 every mode adds zero noise, so the image comes back unchanged. */
  lemma ZeroStrengthKeepsImage(img: Grid<int>, attackType: string, draws: seq<Grid<Sign>>)
    requires IsImage(img) && DrawsFit(img, draws)
    ensures AllZero(AttackNoise(img, attackType, 0.0, draws))
    ensures Attack(img, attackType, 0.0, draws) == img
  {
    var noise := AttackNoise(img, attackType, 0.0, draws);
    if attackType == "PGD" {
      forall i, j, k | 0 <= i < |noise| && 0 <= j < |noise[i]| && 0 <= k < |noise[i][j]| ensures noise[i][j][k] == 0.0 {
        PgdAfterEntry(img, draws, 0.0, PgdIterations, i, j, k);
        PgdEntryBounded(History(draws, PgdIterations, i, j, k), 0.0);
      }
    }
    ZeroNoiseKeepsImage(img, noise);
  }

  /** For a non-negative strength every mode's noise lies in [-strength/255, strength/255]. */
  lemma AttackNoiseBounded(img: Grid<int>, attackType: string, strength: real, draws: seq<Grid<Sign>>)
    requires DrawsFit(img, draws) && strength >= 0.0
    ensures forall i, j, k :: 0 <= i < |img| && 0 <= j < |img[i]| && 0 <= k < |img[i][j]| ==>
      -Epsilon(strength) <= AttackNoise(img, attackType, strength, draws)[i][j][k] <= Epsilon(strength)
  {
  }

  /**
    * For a non-negative strength, every output channel lies within `strength`
    * of the input above and within `strength + 1` below (truncation), in every mode.
    */
  lemma AttackStaysNear(img: Grid<int>, attackType: string, strength: real, draws: seq<Grid<Sign>>)
    requires IsImage(img) && DrawsFit(img, draws) && strength >= 0.0
    ensures forall i, j, k :: 0 <= i < |img| && 0 <= j < |img[i]| && 0 <= k < |img[i][j]| ==>
      img[i][j][k] as real - strength - 1.0 < Attack(img, attackType, strength, draws)[i][j][k] as real <= img[i][j][k] as real + strength
  {
    var noise := AttackNoise(img, attackType, strength, draws);
    var r := Attack(img, attackType, strength, draws);
    AttackNoiseBounded(img, attackType, strength, draws);
    forall i, j, k | 0 <= i < |img| && 0 <= j < |img[i]| && 0 <= k < |img[i][j]|
      ensures img[i][j][k] as real - strength - 1.0 < r[i][j][k] as real <= img[i][j][k] as real + strength
    {
      NoiseMovesAtMost(img[i][j][k], noise[i][j][k], strength);
    }
  }

  /** Where the noise is non-negative the channel never goes down, where it is non-positive it never goes up. */
  lemma AttackFollowsNoiseSign(img: Grid<int>, attackType: string, strength: real, draws: seq<Grid<Sign>>)
    requires IsImage(img) && DrawsFit(img, draws)
    ensures forall i, j, k :: 0 <= i < |img| && 0 <= j < |img[i]| && 0 <= k < |img[i][j]| ==>
      (AttackNoise(img, attackType, strength, draws)[i][j][k] >= 0.0 ==> Attack(img, attackType, strength, draws)[i][j][k] >= img[i][j][k]) &&
      (AttackNoise(img, attackType, strength, draws)[i][j][k] <= 0.0 ==> Attack(img, attackType, strength, draws)[i][j][k] <= img[i][j][k])
  {
    var noise := AttackNoise(img, attackType, strength, draws);
    forall i, j, k | 0 <= i < |img| && 0 <= j < |img[i]| && 0 <= k < |img[i][j]|
      ensures noise[i][j][k] >= 0.0 ==> Attack(img, attackType, strength, draws)[i][j][k] >= img[i][j][k]
      ensures noise[i][j][k] <= 0.0 ==> Attack(img, attackType, strength, draws)[i][j][k] <= img[i][j][k]
    {
      NoiseDirection(img[i][j][k], noise[i][j][k]);
    }
  }
}
