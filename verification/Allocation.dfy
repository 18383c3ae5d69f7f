/** Sharing a width by weight, above a floor. */
module Allocation {

  function Sum(xs: seq<real>): real {
    if xs == [] then 0.0 else xs[0] + Sum(xs[1..])
  }

  /** The total over the positions not pinned. */
  function SumFree(xs: seq<real>, pinned: seq<bool>): real
    requires |xs| == |pinned|
  {
    if xs == [] then 0.0 else (if pinned[0] then 0.0 else xs[0]) + SumFree(xs[1..], pinned[1..])
  }

  function CountFree(pinned: seq<bool>): (n: nat)
    ensures n <= |pinned|
  {
    if pinned == [] then 0 else (if pinned[0] then 0 else 1) + CountFree(pinned[1..])
  }

  /** What `count` floors cost. */
  function Floors(minimum: real, count: nat): real {
    if count == 0 then 0.0 else minimum + Floors(minimum, count - 1)
  }

  /** Every weight times one level. */
  function Scale(weights: seq<real>, level: real): (xs: seq<real>)
    ensures |xs| == |weights|
  {
    if weights == [] then [] else [level * weights[0]] + Scale(weights[1..], level)
  }

  predicate NonNegative(xs: seq<real>) {
    forall i | 0 <= i < |xs| :: xs[i] >= 0.0
  }

  /** Every share is its weight times one common level, or the floor where that is higher. */
  ghost predicate WaterFilled(weights: seq<real>, minimum: real, shares: seq<real>, level: real) {
    && |shares| == |weights|
    && forall i | 0 <= i < |weights| ::
         shares[i] == if Scale(weights, level)[i] >= minimum then Scale(weights, level)[i] else minimum
  }

  // -------------------------------------------------------------- sums over the free

  lemma {:induction false} FloorsAdd(minimum: real, j: nat, k: nat)
    ensures Floors(minimum, j + k) == Floors(minimum, j) + Floors(minimum, k)
  {
    if j > 0 { FloorsAdd(minimum, j - 1, k); }
  }

  lemma {:induction false} FloorsAreProduct(minimum: real, count: nat)
    ensures Floors(minimum, count) == minimum * count as real
  {
    if count > 0 { FloorsAreProduct(minimum, count - 1); }
  }

  lemma {:induction false} ScaleAt(weights: seq<real>, level: real, i: nat)
    requires i < |weights|
    ensures Scale(weights, level)[i] == level * weights[i]
  {
    if i > 0 { ScaleAt(weights[1..], level, i - 1); }
  }

  lemma {:induction false} ScaledSum(weights: seq<real>, pinned: seq<bool>, level: real)
    requires |weights| == |pinned|
    ensures SumFree(Scale(weights, level), pinned) == level * SumFree(weights, pinned)
  {
    if weights != [] {
      ScaledSum(weights[1..], pinned[1..], level);
      assert Scale(weights, level)[1..] == Scale(weights[1..], level);
      var first := if pinned[0] then 0.0 else weights[0];
      Distribute(level, first, SumFree(weights[1..], pinned[1..]));
    }
  }

  lemma Distribute(level: real, x: real, y: real)
    ensures level * (x + y) == level * x + level * y
    ensures level * 0.0 == 0.0
  {
  }

  lemma {:induction false} EqualSum(xs: seq<real>, pinned: seq<bool>, each: real)
    requires |xs| == |pinned|
    requires forall i | 0 <= i < |xs| && !pinned[i] :: xs[i] == each
    ensures SumFree(xs, pinned) == Floors(each, CountFree(pinned))
  {
    if xs != [] { EqualSum(xs[1..], pinned[1..], each); }
  }

  lemma {:induction false} SameFreeSum(xs: seq<real>, ys: seq<real>, pinned: seq<bool>)
    requires |xs| == |ys| == |pinned|
    requires forall i | 0 <= i < |xs| && !pinned[i] :: xs[i] == ys[i]
    ensures SumFree(xs, pinned) == SumFree(ys, pinned)
  {
    if xs != [] { SameFreeSum(xs[1..], ys[1..], pinned[1..]); }
  }

  /** Everything is either free or pinned at the floor. */
  lemma {:induction false} SplitSum(xs: seq<real>, pinned: seq<bool>, minimum: real)
    requires |xs| == |pinned|
    requires forall i | 0 <= i < |xs| && pinned[i] :: xs[i] == minimum
    ensures Sum(xs) == SumFree(xs, pinned) + Floors(minimum, |xs| - CountFree(pinned))
  {
    if xs != [] { SplitSum(xs[1..], pinned[1..], minimum); }
  }

  /** If every free share is below the floor, their total is below it too. */
  lemma {:induction false} AllBelow(xs: seq<real>, pinned: seq<bool>, minimum: real)
    requires |xs| == |pinned|
    requires forall i | 0 <= i < |xs| && !pinned[i] :: xs[i] < minimum
    ensures SumFree(xs, pinned) <= Floors(minimum, CountFree(pinned))
    ensures CountFree(pinned) > 0 ==> SumFree(xs, pinned) < Floors(minimum, CountFree(pinned))
  {
    if xs != [] { AllBelow(xs[1..], pinned[1..], minimum); }
  }

  /** Pinning shares below the floor takes no more out of the free total than floors cost. */
  lemma {:induction false} PinSum(xs: seq<real>, pinned: seq<bool>, pinned': seq<bool>, minimum: real)
    requires |xs| == |pinned| == |pinned'|
    requires forall i | 0 <= i < |xs| && pinned[i] :: pinned'[i]
    requires forall i | 0 <= i < |xs| && pinned'[i] && !pinned[i] :: xs[i] <= minimum
    ensures CountFree(pinned') <= CountFree(pinned)
    ensures (exists i | 0 <= i < |xs| :: pinned'[i] && !pinned[i]) ==> CountFree(pinned') < CountFree(pinned)
    ensures SumFree(xs, pinned)
            <= SumFree(xs, pinned') + Floors(minimum, CountFree(pinned) - CountFree(pinned'))
  {
    if xs != [] {
      PinSum(xs[1..], pinned[1..], pinned'[1..], minimum);
      if i :| 0 <= i < |xs| && pinned'[i] && !pinned[i] {
        assert i > 0 ==> pinned'[1..][i - 1] && !pinned[1..][i - 1];
      }
    }
  }

  lemma {:induction false} FreeWeightIsPositive(ws: seq<real>, pinned: seq<bool>, i: nat)
    requires |ws| == |pinned| && NonNegative(ws) && i < |ws| && !pinned[i]
    ensures SumFree(ws, pinned) >= ws[i]
  {
    FreeSumNonNegative(ws[1..], pinned[1..]);
    if i > 0 { FreeWeightIsPositive(ws[1..], pinned[1..], i - 1); }
  }

  lemma {:induction false} FreeSumNonNegative(ws: seq<real>, pinned: seq<bool>)
    requires |ws| == |pinned| && NonNegative(ws)
    ensures SumFree(ws, pinned) >= 0.0
  {
    if ws != [] { FreeSumNonNegative(ws[1..], pinned[1..]); }
  }

  lemma {:induction false} FreeExists(pinned: seq<bool>)
    ensures CountFree(pinned) > 0 <==> exists i | 0 <= i < |pinned| :: !pinned[i]
  {
    if pinned != [] {
      FreeExists(pinned[1..]);
      if i :| 0 <= i < |pinned| && !pinned[i] { assert i > 0 ==> !pinned[1..][i - 1]; }
    }
  }

  // -------------------------------------------------------------------- one pass

  /**
   * Each free position holds its share of the pool: in proportion to its weight, or an
   * equal part when no weight is left.
   */
  ghost predicate Shared(shares: seq<real>, weights: seq<real>, pinned: seq<bool>, pool: real, level: real) {
    && |shares| == |weights| == |pinned|
    && CountFree(pinned) > 0
    && if SumFree(weights, pinned) > 0.0
       then && SumFree(Scale(weights, level), pinned) == pool
            && forall i | 0 <= i < |shares| && !pinned[i] :: shares[i] == Scale(weights, level)[i]
       else && Floors(level, CountFree(pinned)) == pool
            && forall i | 0 <= i < |shares| && !pinned[i] :: shares[i] == level
  }

  /** The free shares hand out the pool exactly, whatever the weights. */
  lemma {:induction false} SharesSpendPool(shares: seq<real>, weights: seq<real>, pinned: seq<bool>, pool: real, level: real)
    requires Shared(shares, weights, pinned, pool, level)
    ensures SumFree(shares, pinned) == pool
  {
    if SumFree(weights, pinned) > 0.0 {
      SameFreeSum(shares, Scale(weights, level), pinned);
    } else {
      EqualSum(shares, pinned, level);
    }
  }

  /** What is left to hand out when every pinned position takes the floor. */
  function Pool(pinned: seq<bool>, total: real, minimum: real): real {
    total - Floors(minimum, |pinned| - CountFree(pinned))
  }

  /** What holds before each pass: the pinned sit at the floor and someone is still free. */
  ghost predicate Ready(out: seq<real>, pinned: seq<bool>, minimum: real, pass: nat) {
    && |out| == |pinned|
    && (forall i | 0 <= i < |out| && pinned[i] :: out[i] == minimum)
    && 1 <= CountFree(pinned) <= |out| - pass
  }

  /** One pass over the free positions: shares, and those below the floor pinned to it. */
  ghost predicate Passed(out: seq<real>, pinned: seq<bool>, shares: seq<real>, out': seq<real>, pinned': seq<bool>,
                         minimum: real)
  {
    && |out| == |pinned| == |shares| == |out'| == |pinned'|
    && forall i | 0 <= i < |out| ::
         && pinned'[i] == (pinned[i] || shares[i] < minimum)
         && out'[i] == if pinned[i] then out[i] else if shares[i] < minimum then minimum else shares[i]
  }

  ghost predicate PinnedMore(pinned: seq<bool>, pinned': seq<bool>)
    requires |pinned| == |pinned'|
  {
    exists i | 0 <= i < |pinned| :: pinned'[i] && !pinned[i]
  }

  /** A pass that pins someone leaves someone free, so the passes cannot run out. */
  lemma {:induction false} PassPins(out: seq<real>, pinned: seq<bool>, weights: seq<real>, shares: seq<real>,
                 out': seq<real>, pinned': seq<bool>, total: real, minimum: real, level: real, pass: nat)
    requires Ready(out, pinned, minimum, pass) && total >= Floors(minimum, |out|)
    requires Shared(shares, weights, pinned, Pool(pinned, total, minimum), level)
    requires Passed(out, pinned, shares, out', pinned', minimum)
    requires PinnedMore(pinned, pinned')
    ensures Ready(out', pinned', minimum, pass + 1)
  {
    SharesSpendPool(shares, weights, pinned, Pool(pinned, total, minimum), level);
    PinSum(shares, pinned, pinned', minimum);
    FloorsAdd(minimum, |out| - CountFree(pinned), CountFree(pinned));
    if CountFree(pinned') == 0 {
      FreeExists(pinned');
      AllBelow(shares, pinned, minimum);
    }
  }

  /** A pass that pins no one spends the total exactly and respects the floor. */
  lemma {:induction false} PassSettles(out: seq<real>, pinned: seq<bool>, weights: seq<real>, shares: seq<real>,
                    out': seq<real>, pinned': seq<bool>, total: real, minimum: real, level: real, pass: nat)
    requires Ready(out, pinned, minimum, pass)
    requires Shared(shares, weights, pinned, Pool(pinned, total, minimum), level)
    requires Passed(out, pinned, shares, out', pinned', minimum)
    requires !PinnedMore(pinned, pinned')
    ensures Sum(out') == total && forall i | 0 <= i < |out'| :: out'[i] >= minimum
  {
    assert pinned' == pinned;
    SharesSpendPool(shares, weights, pinned, Pool(pinned, total, minimum), level);
    SameFreeSum(out', shares, pinned);
    SplitSum(out', pinned, minimum);
  }

  // ---------------------------------------------------------------- the water level

  /** The weights a water level makes sense for. */
  ghost predicate Pourable(weights: seq<real>, minimum: real) {
    minimum >= 0.0 && NonNegative(weights) && exists i | 0 <= i < |weights| :: weights[i] > 0.0
  }

  /** Some weight is free, the last level left every pinned weight at or below the floor, and
      the next level is no higher. */
  ghost predicate Sinking(weights: seq<real>, pinned: seq<bool>, total: real, minimum: real, level: real) {
    && |weights| == |pinned|
    && SumFree(weights, pinned) > 0.0
    && (forall i | 0 <= i < |weights| && pinned[i] :: Scale(weights, level)[i] <= minimum)
    && Pool(pinned, total, minimum) <= SumFree(Scale(weights, level), pinned)
  }

  lemma {:induction false} LowerLevel(weights: seq<real>, pinned: seq<bool>, last: real, level: real)
    requires |weights| == |pinned| && NonNegative(weights) && SumFree(weights, pinned) > 0.0
    requires SumFree(Scale(weights, level), pinned) <= SumFree(Scale(weights, last), pinned)
    ensures level <= last
  {
    if last < level { HigherLevelSpendsMore(weights, pinned, last, level); }
  }

  lemma {:induction false} HigherLevelSpendsMore(weights: seq<real>, pinned: seq<bool>, x: real, y: real)
    requires |weights| == |pinned| && NonNegative(weights) && x < y
    ensures SumFree(Scale(weights, x), pinned) <= SumFree(Scale(weights, y), pinned)
    ensures SumFree(weights, pinned) > 0.0 ==>
              SumFree(Scale(weights, x), pinned) < SumFree(Scale(weights, y), pinned)
  {
    if weights != [] {
      GrowsWithFactor(x, y, weights[0]);
      HigherLevelSpendsMore(weights[1..], pinned[1..], x, y);
    }
  }

  lemma {:induction false} ScaleGrows(weights: seq<real>, x: real, y: real)
    requires NonNegative(weights) && x <= y
    ensures forall i | 0 <= i < |weights| :: Scale(weights, x)[i] <= Scale(weights, y)[i]
  {
    if weights != [] {
      GrowsWithFactor(x, y, weights[0]);
      ScaleGrows(weights[1..], x, y);
    }
  }

  lemma GrowsWithFactor(x: real, y: real, w: real)
    requires w >= 0.0 && x <= y
    ensures x * w <= y * w
    ensures w > 0.0 && x < y ==> x * w < y * w
  {
  }

  /** A pass that pins someone keeps the level sinking. */
  lemma {:induction false} PassSinks(pinned: seq<bool>, weights: seq<real>, shares: seq<real>, pinned': seq<bool>,
                  total: real, minimum: real, last: real, level: real)
    requires |shares| == |weights| == |pinned| == |pinned'|
    requires Pourable(weights, minimum) && total >= Floors(minimum, |weights|)
    requires Sinking(weights, pinned, total, minimum, last)
    requires Shared(shares, weights, pinned, Pool(pinned, total, minimum), level)
    requires forall i | 0 <= i < |pinned| :: pinned'[i] == (pinned[i] || shares[i] < minimum)
    requires CountFree(pinned') > 0 && PinnedMore(pinned, pinned')
    ensures Sinking(weights, pinned', total, minimum, level)
  {
    FreeStaysPositive(pinned, weights, pinned', total, minimum, level);
    PoolSinks(pinned, Scale(weights, level), pinned', total, minimum);
    LowerLevel(weights, pinned, last, level);
    ScaleGrows(weights, level, last);
  }

  lemma {:induction false} PoolSinks(pinned: seq<bool>, xs: seq<real>, pinned': seq<bool>, total: real, minimum: real)
    requires |xs| == |pinned| == |pinned'|
    requires SumFree(xs, pinned) == Pool(pinned, total, minimum)
    requires forall i | 0 <= i < |xs| && pinned[i] :: pinned'[i]
    requires forall i | 0 <= i < |xs| && pinned'[i] && !pinned[i] :: xs[i] <= minimum
    ensures Pool(pinned', total, minimum) <= SumFree(xs, pinned')
  {
    PinSum(xs, pinned, pinned', minimum);
    PoolAfter(pinned, xs, pinned', total, minimum);
  }

  lemma {:induction false} PoolAfter(pinned: seq<bool>, xs: seq<real>, pinned': seq<bool>, total: real, minimum: real)
    requires |xs| == |pinned| == |pinned'| && CountFree(pinned') <= CountFree(pinned)
    requires SumFree(xs, pinned) == Pool(pinned, total, minimum)
    requires SumFree(xs, pinned)
             <= SumFree(xs, pinned') + Floors(minimum, CountFree(pinned) - CountFree(pinned'))
    ensures Pool(pinned', total, minimum) <= SumFree(xs, pinned')
  {
    FloorsAdd(minimum, |pinned| - CountFree(pinned), CountFree(pinned) - CountFree(pinned'));
  }

  lemma {:induction false} FreeStaysPositive(pinned: seq<bool>, weights: seq<real>, pinned': seq<bool>,
                          total: real, minimum: real, level: real)
    requires |weights| == |pinned| == |pinned'|
    requires Pourable(weights, minimum) && total >= Floors(minimum, |weights|)
    requires SumFree(weights, pinned) > 0.0
    requires SumFree(Scale(weights, level), pinned) == Pool(pinned, total, minimum)
    requires forall i | 0 <= i < |pinned| :: pinned'[i] == (pinned[i] || Scale(weights, level)[i] < minimum)
    requires CountFree(pinned') > 0 && PinnedMore(pinned, pinned')
    ensures SumFree(weights, pinned') > 0.0
  {
    FreeExists(pinned');
    var f :| 0 <= f < |pinned'| && !pinned'[f];
    var p :| 0 <= p < |pinned| && pinned'[p] && !pinned[p];
    FloorsAdd(minimum, |pinned| - CountFree(pinned), CountFree(pinned));
    FloorsNonNegative(minimum, CountFree(pinned));
    LevelNonNegative(weights, pinned, level, p);
    PositiveScale(weights, level, f);
    FreeWeightIsPositive(weights, pinned', f);
  }

  lemma {:induction false} PositiveScale(weights: seq<real>, level: real, i: nat)
    requires i < |weights| && weights[i] >= 0.0 && Scale(weights, level)[i] > 0.0
    ensures weights[i] > 0.0
  {
    TimesZero(level, weights[i]);
    ScaleAt(weights, level, i);
  }

  lemma TimesZero(x: real, y: real)
    ensures y == 0.0 ==> x * y == 0.0
  {
  }

  lemma {:induction false} FloorsNonNegative(minimum: real, count: nat)
    requires minimum >= 0.0
    ensures Floors(minimum, count) >= 0.0
  {
    if count > 0 { FloorsNonNegative(minimum, count - 1); }
  }

  lemma {:induction false} LevelNonNegative(weights: seq<real>, pinned: seq<bool>, level: real, p: nat)
    requires |weights| == |pinned| && SumFree(weights, pinned) > 0.0
    requires SumFree(Scale(weights, level), pinned) >= 0.0
    requires p < |weights| && weights[p] >= 0.0
    ensures Scale(weights, level)[p] >= 0.0
  {
    ScaledSum(weights, pinned, level);
    NonNegativeFactor(level, SumFree(weights, pinned));
    ProductNonNegative(level, weights[p]);
    ScaleAt(weights, level, p);
  }

  lemma ProductNonNegative(x: real, y: real)
    requires x >= 0.0 && y >= 0.0
    ensures x * y >= 0.0
  {
  }

  lemma NonNegativeFactor(level: real, w: real)
    requires w > 0.0 && level * w >= 0.0
    ensures level >= 0.0
  {
  }

  /** A pass that pins no one has filled every share to the level of that pass. */
  lemma PassFills(out: seq<real>, pinned: seq<bool>, weights: seq<real>, shares: seq<real>,
                  out': seq<real>, pinned': seq<bool>, total: real, minimum: real, last: real, level: real, pass: nat)
    requires Ready(out, pinned, minimum, pass)
    requires Shared(shares, weights, pinned, Pool(pinned, total, minimum), level)
    requires Passed(out, pinned, shares, out', pinned', minimum)
    requires !PinnedMore(pinned, pinned')
    requires Pourable(weights, minimum) && Sinking(weights, pinned, total, minimum, last)
    ensures WaterFilled(weights, minimum, out', level)
  {
    LowerLevel(weights, pinned, last, level);
    ScaleGrows(weights, level, last);
    forall i | 0 <= i < |weights|
      ensures out'[i] == if Scale(weights, level)[i] >= minimum then Scale(weights, level)[i] else minimum
    {
      assert pinned'[i] == pinned[i];
    }
  }

  /** Before the first pass nothing is pinned, and the first level spends the total. */
  lemma NothingPinned(weights: seq<real>, pinned: seq<bool>, total: real, minimum: real) returns (level: real)
    requires |weights| == |pinned| && forall i | 0 <= i < |pinned| :: !pinned[i]
    ensures CountFree(pinned) == |pinned|
    ensures Pourable(weights, minimum) ==> Sinking(weights, pinned, total, minimum, level)
  {
    AllFree(pinned);
    level := 0.0;
    if Pourable(weights, minimum) {
      var i :| 0 <= i < |weights| && weights[i] > 0.0;
      FreeWeightIsPositive(weights, pinned, i);
      level := Factor(total, SumFree(weights, pinned));
      ScaledSum(weights, pinned, level);
    }
  }

  lemma {:induction false} AllFree(pinned: seq<bool>)
    requires forall i | 0 <= i < |pinned| :: !pinned[i]
    ensures CountFree(pinned) == |pinned|
  {
    if pinned != [] { AllFree(pinned[1..]); }
  }

  lemma {:induction false} EqualShares(xs: seq<real>, each: real)
    requires forall i | 0 <= i < |xs| :: xs[i] == each
    ensures Sum(xs) == Floors(each, |xs|)
  {
    if xs != [] { EqualShares(xs[1..], each); }
  }

  /** The water level fixes the shares: filling to the same total gives the same shares. */
  lemma {:induction false} WaterIsUnique(weights: seq<real>, minimum: real, xs: seq<real>, ys: seq<real>, x: real, y: real)
    requires NonNegative(weights)
    requires WaterFilled(weights, minimum, xs, x) && WaterFilled(weights, minimum, ys, y)
    requires Sum(xs) == Sum(ys)
    ensures xs == ys
  {
    if x <= y {
      ScaleGrows(weights, x, y);
      Squeezed(xs, ys);
    } else {
      ScaleGrows(weights, y, x);
      Squeezed(ys, xs);
    }
  }

  lemma {:induction false} Squeezed(xs: seq<real>, ys: seq<real>)
    requires |xs| == |ys| && forall i | 0 <= i < |xs| :: xs[i] <= ys[i]
    ensures Sum(xs) <= Sum(ys)
    ensures Sum(xs) == Sum(ys) ==> xs == ys
  {
    if xs != [] { Squeezed(xs[1..], ys[1..]); }
  }

  // ------------------------------------------------------------------ the algorithm

  /** Dividing is finding the factor: the only fact about division the proofs use. */
  lemma Factor(x: real, d: real) returns (q: real)
    requires d != 0.0
    ensures q == x / d && q * d == x
  {
    q := x / d;
  }

  lemma Reassociate(ratio: real, weightSum: real, level: real, w: real)
    requires ratio * weightSum == w
    ensures ratio * (level * weightSum) == level * w
  {
    assert ratio * (level * weightSum) == level * (ratio * weightSum);
  }

  /** One free share; `level` is the pool per unit of weight, or per free position. */
  method ComputeShare(weights: seq<real>, i: nat, weightSum: real, pool: real, freeCount: nat, ghost level: real)
    returns (share: real)
    requires freeCount > 0 && i < |weights|
    requires if weightSum > 0.0 then level * weightSum == pool else level * freeCount as real == pool
    ensures share == SharesAt(weights, weightSum, level)[i]
  {
    if weightSum > 0.0 {
      ghost var ratio := Factor(weights[i], weightSum);
      Reassociate(ratio, weightSum, level, weights[i]);
      ScaleAt(weights, level, i);
      share := weights[i] / weightSum * pool;
    } else {
      share := pool / freeCount as real;
      ghost var q := Factor(pool, freeCount as real);
      SameFactor(q, level, freeCount as real);
    }
  }

  lemma SameFactor(x: real, y: real, d: real)
    requires d != 0.0 && x * d == y * d
    ensures x == y
  {
  }

  /** The shares of one pass over the free positions. */
  function SharesAt(weights: seq<real>, weightSum: real, level: real): (shares: seq<real>)
    ensures |shares| == |weights|
  {
    if weightSum > 0.0 then Scale(weights, level) else seq(|weights|, _ => level)
  }

  ghost predicate IsLevel(weights: seq<real>, pinned: seq<bool>, pool: real, level: real) {
    && |weights| == |pinned|
    && CountFree(pinned) > 0
    && if SumFree(weights, pinned) > 0.0
       then level * SumFree(weights, pinned) == pool
       else level * CountFree(pinned) as real == pool
  }

  lemma FindLevel(weights: seq<real>, pinned: seq<bool>, pool: real) returns (level: real)
    requires |weights| == |pinned| && CountFree(pinned) > 0
    ensures IsLevel(weights, pinned, pool, level)
  {
    if SumFree(weights, pinned) > 0.0 {
      level := Factor(pool, SumFree(weights, pinned));
    } else {
      level := Factor(pool, CountFree(pinned) as real);
    }
  }

  lemma {:induction false} LevelShares(weights: seq<real>, pinned: seq<bool>, pool: real, level: real)
    requires IsLevel(weights, pinned, pool, level)
    ensures Shared(SharesAt(weights, SumFree(weights, pinned), level), weights, pinned, pool, level)
  {
    if SumFree(weights, pinned) > 0.0 {
      ScaledSum(weights, pinned, level);
    } else {
      EqualPartsSpend(pool, CountFree(pinned), level);
    }
  }

  lemma {:induction false} EqualPartsSpend(pool: real, count: nat, each: real)
    requires each * count as real == pool
    ensures Floors(each, count) == pool
  {
    FloorsAreProduct(each, count);
  }

  /** One pass, in place: share out the pool, and pin what falls below the floor. */
  method RunPass(weights: seq<real>, pool: real, minimum: real, ghost level: real,
                 out: array<real>, pinned: array<bool>)
    returns (pinnedThisPass: bool)
    requires out.Length == pinned.Length == |weights| && IsLevel(weights, pinned[..], pool, level)
    modifies out, pinned
    ensures Passed(old(out[..]), old(pinned[..]), SharesAt(weights, SumFree(weights, old(pinned[..])), level),
                   out[..], pinned[..], minimum)
    ensures pinnedThisPass <==> PinnedMore(old(pinned[..]), pinned[..])
  {
    var n := |weights|;
    var was := pinned[..];
    var weightSum, freeCount := SumFree(weights, was), CountFree(was);
    ghost var shares := SharesAt(weights, weightSum, level);
    pinnedThisPass := false;
    for i := 0 to n
      invariant forall k | i <= k < n :: out[k] == old(out[k]) && pinned[k] == was[k]
      invariant forall k | 0 <= k < i :: pinned[k] == (was[k] || shares[k] < minimum)
      invariant forall k | 0 <= k < i ::
                  out[k] == if was[k] then old(out[k]) else if shares[k] < minimum then minimum else shares[k]
      invariant pinnedThisPass <==> exists k | 0 <= k < i :: pinned[k] && !was[k]
    {
      if !was[i] {
        out[i] := ComputeShare(weights, i, weightSum, pool, freeCount, level);
        if out[i] < minimum {
          out[i] := minimum;
          pinned[i] := true;
          pinnedThisPass := true;
        }
      }
    }
  }

  /**
   * The split. When the total covers the floors the shares meet them and spend the total
   * exactly, whatever the weights; with weights that can be poured they are filled to one
   * level. Otherwise every share is the same.
   */
  method Allocate(weights: seq<real>, total: real, minimum: real) returns (out: array<real>)
    ensures fresh(out) && out.Length == |weights|
    ensures |weights| > 0 ==> Sum(out[..]) == total
    ensures total >= minimum * |weights| as real ==> forall i | 0 <= i < out.Length :: out[i] >= minimum
    ensures total < minimum * |weights| as real ==>
              forall i | 0 <= i < out.Length :: out[i] == total / |weights| as real
    ensures total >= minimum * |weights| as real && Pourable(weights, minimum) ==>
              exists level :: WaterFilled(weights, minimum, out[..], level)
  {
    var n := |weights|;
    if n == 0 {
      out := new real[0];
      return;
    }
    if total < minimum * n as real {
      out := SplitEvenly(n, total);
      return;
    }
    FloorsAreProduct(minimum, n);
    out := AllocateAboveFloors(weights, total, minimum);
  }

  method SplitEvenly(n: nat, total: real) returns (out: array<real>)
    requires n > 0
    ensures fresh(out) && out.Length == n
    ensures Sum(out[..]) == total
    ensures forall i | 0 <= i < n :: out[i] == total / n as real
  {
    ghost var each := Factor(total, n as real);
    out := new real[n](_ => total / n as real);
    EqualShares(out[..], each);
    EqualPartsSpend(total, n, each);
  }

  /** The passes, when the total covers the floors: they always end by settling. */
  method AllocateAboveFloors(weights: seq<real>, total: real, minimum: real) returns (out: array<real>)
    requires |weights| > 0 && total >= Floors(minimum, |weights|)
    ensures fresh(out) && out.Length == |weights|
    ensures Sum(out[..]) == total
    ensures forall i | 0 <= i < out.Length :: out[i] >= minimum
    ensures Pourable(weights, minimum) ==> exists level :: WaterFilled(weights, minimum, out[..], level)
  {
    var n := |weights|;
    out := new real[n](_ => 0.0);
    var pinned := new bool[n](_ => false);
    ghost var last := NothingPinned(weights, pinned[..], total, minimum);
    for pass := 0 to n
      invariant Ready(out[..], pinned[..], minimum, pass)
      invariant Pourable(weights, minimum) ==> Sinking(weights, pinned[..], total, minimum, last)
    {
      ghost var out0, pinned0 := out[..], pinned[..];
      var pool := Pool(pinned[..], total, minimum);
      ghost var level := FindLevel(weights, pinned0, pool);
      ghost var shares := SharesAt(weights, SumFree(weights, pinned0), level);
      LevelShares(weights, pinned0, pool, level);
      var pinnedThisPass := RunPass(weights, pool, minimum, level, out, pinned);
      if !pinnedThisPass {
        PassSettles(out0, pinned0, weights, shares, out[..], pinned[..], total, minimum, level, pass);
        if Pourable(weights, minimum) {
          PassFills(out0, pinned0, weights, shares, out[..], pinned[..], total, minimum, last, level, pass);
        }
        break;
      }
      PassPins(out0, pinned0, weights, shares, out[..], pinned[..], total, minimum, level, pass);
      if Pourable(weights, minimum) {
        PassSinks(pinned0, weights, shares, pinned[..], total, minimum, last, level);
      }
      last := level;
    }
  }
}
