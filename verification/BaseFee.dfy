/** The base-fee controller: a saturating 256-bit system driven by how full blocks are. */
module BaseFee {
  import opened Basics

  const MILLION: nat := 1_000_000

  type Permill = p: nat | p <= 1_000_000

  /** `DefaultBaseFeePerGas` and the three thresholds. */
  datatype Params = Params(defaultFee: U256, lower: Permill, ideal: Permill, upper: Permill)

  /** `Permill::from_rational`: rounded down, and one where the fraction is above one or has no value. */
  function FromRational(p: nat, q: nat): Permill {
    if p >= q then MILLION else Portion(p, q)
  }

  function Portion(p: nat, q: nat): (r: Permill)
    requires p < q
    ensures r < MILLION
  {
    PortionBelowOne(p, q);
    p * MILLION / q
  }

  lemma Quotient(n: nat, q: nat)
    requires q > 0
    ensures n / q * q <= n < (n / q + 1) * q
  {
    var r := n / q;
    assert n == r * q + n % q;
    assert (r + 1) * q == r * q + q;
  }

  lemma DivBelow(n: nat, q: nat, m: nat)
    requires q > 0 && n < m * q
    ensures n / q < m
  {
    Quotient(n, q);
    if n / q >= m {
      ProductBound(m, n / q, q, q);
    }
  }

  lemma PortionBelowOne(p: nat, q: nat)
    requires p < q
    ensures 0 <= p * MILLION / q < MILLION
  {
    DivBelow(p * MILLION, q, MILLION);
  }

  /** Fullness clamped to `lower` and `upper` and put on the scale between them; `clamp` needs them in order. */
  function Scaled(params: Params, full: Permill): Permill
    requires params.lower <= params.upper
  {
    FromRational(Max(params.lower, Min(full, params.upper)) - params.lower, params.upper - params.lower)
  }

  function Usage(params: Params, weight: nat, maxWeight: nat): Permill
    requires params.lower <= params.upper
  {
    Scaled(params, FromRational(weight, maxWeight))
  }

  lemma FromRationalMonotone(p: nat, p': nat, q: nat)
    requires p <= p'
    ensures FromRational(p, q) <= FromRational(p', q)
  {
    if p' < q {
      var n, n' := p * MILLION, p' * MILLION;
      Quotient(n, q);
      Quotient(n', q);
      if n / q > n' / q {
        ProductBound(n' / q + 1, n / q, q, q);
      }
    }
  }

  /** Fuller blocks are never taken for emptier ones; from `lower` down usage is nothing, from `upper` up everything. */
  lemma UsageScale(params: Params, weight: nat, weight': nat, maxWeight: nat)
    requires params.lower < params.upper && weight <= weight'
    ensures Usage(params, weight, maxWeight) <= Usage(params, weight', maxWeight)
    ensures FromRational(weight, maxWeight) <= params.lower ==> Usage(params, weight, maxWeight) == 0
    ensures Usage(params, weight, maxWeight) == MILLION <==> FromRational(weight, maxWeight) >= params.upper
  {
    var full, full' := FromRational(weight, maxWeight), FromRational(weight', maxWeight);
    FromRationalMonotone(weight, weight', maxWeight);
    ClampedScale(params, full, full');
  }

  /** In between, usage is the place of the fullness between the thresholds, and fullness the share of the weight. */
  lemma UsageLinear(params: Params, weight: nat, maxWeight: nat)
    requires weight < maxWeight && params.lower <= FromRational(weight, maxWeight) < params.upper
    ensures var full, usage := FromRational(weight, maxWeight), Usage(params, weight, maxWeight);
            && full * maxWeight <= weight * MILLION < (full + 1) * maxWeight
            && usage * (params.upper - params.lower) <= (full - params.lower) * MILLION
                 < (usage + 1) * (params.upper - params.lower)
  {
    Quotient(weight * MILLION, maxWeight);
    var full := FromRational(weight, maxWeight);
    Quotient((full - params.lower) * MILLION, params.upper - params.lower);
  }

  lemma ClampedScale(params: Params, full: Permill, full': Permill)
    requires params.lower < params.upper && full <= full'
    ensures Scaled(params, full) <= Scaled(params, full')
    ensures full <= params.lower ==> Scaled(params, full) == 0
    ensures Scaled(params, full) == MILLION <==> full >= params.upper
  {
    var used, used' := Max(params.lower, Min(full, params.upper)), Max(params.lower, Min(full', params.upper));
    var range := params.upper - params.lower;
    FromRationalMonotone(used - params.lower, used' - params.lower, range);
    assert Portion(0, range) == 0;
  }

  /** How much of the elasticity is used at a distance `delta` from the ideal; `from_parts` caps at one. */
  function Coefficient(elasticity: Permill, delta: nat): Permill {
    var doubled: nat := Min(2 * delta, MILLION);
    assert elasticity * doubled <= MILLION * MILLION by { ProductBound(elasticity, MILLION, doubled, MILLION); }
    elasticity * doubled / MILLION
  }

  /** The lowest fee that a decrease can set; the multiplication falls back to the default on overflow. */
  function Floor(params: Params): (f: U256)
    ensures f <= params.defaultFee
  {
    var scaled := params.defaultFee * params.ideal;
    ProductBound(params.ideal, MILLION, params.defaultFee, params.defaultFee);
    (if scaled <= U256_MAX then scaled else params.defaultFee) / MILLION
  }

  /** One decrease with coefficient `c` towards `floor`; on overflow of the product nothing changes. */
  function Decrease(floor: U256, c: Permill, fee: U256): U256 {
    if fee * c > U256_MAX then fee
    else
      var lowered := SaturatingSub(fee, fee * c / MILLION);
      if lowered >= floor then lowered else floor
  }

  /** One increase with coefficient `c`. */
  function Increase(c: Permill, fee: U256): U256 {
    if fee * c > U256_MAX then fee else SaturatingAdd(fee, fee * c / MILLION)
  }

  /** The fee after a block with the given fullness `usage`, on the lower-to-upper scale. */
  function NextFee(params: Params, elasticity: Permill, usage: Permill, fee: U256): U256 {
    if elasticity == 0 then fee
    else if usage > params.ideal then Increase(Coefficient(elasticity, usage - params.ideal), fee)
    else if usage < params.ideal then Decrease(Floor(params), Coefficient(elasticity, params.ideal - usage), fee)
    else fee
  }

  /** The fee should move, but the product does not fit 256 bits. */
  predicate Overflows(params: Params, elasticity: Permill, usage: Permill, fee: U256) {
    && elasticity > 0 && usage != params.ideal
    && var distance := if usage > params.ideal then usage - params.ideal else params.ideal - usage;
       fee * Coefficient(elasticity, distance) > U256_MAX
  }

  class Pallet {
    const params: Params
    var baseFeePerGas: U256
    var elasticity: Permill

    constructor (params: Params, fee: U256, elasticity: Permill)
      ensures this.params == params && baseFeePerGas == fee && this.elasticity == elasticity
    {
      this.params, baseFeePerGas, this.elasticity := params, fee, elasticity;
    }

    /** `on_finalize` of a block of this weight; `overflowed` is the `BaseFeeOverflow` event. */
    method OnFinalize(weight: nat, maxWeight: nat) returns (overflowed: bool)
      requires params.lower <= params.upper
      modifies this`baseFeePerGas
      ensures baseFeePerGas == NextFee(params, elasticity, Usage(params, weight, maxWeight), old(baseFeePerGas))
      ensures overflowed <==> Overflows(params, elasticity, Usage(params, weight, maxWeight), old(baseFeePerGas))
    {
      if elasticity == 0 {
        return false;
      }
      overflowed := MoveFee(Usage(params, weight, maxWeight));
    }

    /** The part of `on_finalize` that changes the fee. */
    method MoveFee(usage: Permill) returns (overflowed: bool)
      requires elasticity > 0
      modifies this`baseFeePerGas
      ensures baseFeePerGas == NextFee(params, elasticity, usage, old(baseFeePerGas))
      ensures overflowed <==> Overflows(params, elasticity, usage, old(baseFeePerGas))
    {
      overflowed := false;
      if usage > params.ideal {
        overflowed := RaiseFee(Coefficient(elasticity, usage - params.ideal));
      } else if usage < params.ideal {
        overflowed := LowerFee(Coefficient(elasticity, params.ideal - usage));
      }
    }

    /** Above the target. */
    method RaiseFee(c: Permill) returns (overflowed: bool)
      modifies this`baseFeePerGas
      ensures baseFeePerGas == Increase(c, old(baseFeePerGas))
      ensures overflowed <==> old(baseFeePerGas) * c > U256_MAX
    {
      var scaled := baseFeePerGas * c;
      overflowed := scaled > U256_MAX;
      if !overflowed {
        baseFeePerGas := SaturatingAdd(baseFeePerGas, scaled / MILLION);
      }
    }

    /** Below the target. */
    method LowerFee(c: Permill) returns (overflowed: bool)
      modifies this`baseFeePerGas
      ensures baseFeePerGas == Decrease(Floor(params), c, old(baseFeePerGas))
      ensures overflowed <==> old(baseFeePerGas) * c > U256_MAX
    {
      var scaled := baseFeePerGas * c;
      overflowed := scaled > U256_MAX;
      if !overflowed {
        var lowered, lowest := SaturatingSub(baseFeePerGas, scaled / MILLION), Floor(params);
        if lowered >= lowest {
          baseFeePerGas := lowered;
        } else {
          baseFeePerGas := lowest;
        }
      }
    }
  }

  // Bounds on every step

  lemma CoefficientBelowElasticity(elasticity: Permill, delta: nat)
    ensures Coefficient(elasticity, delta) <= elasticity
  {
    var doubled: nat := Min(2 * delta, MILLION);
    ProductBound(elasticity, elasticity, doubled, MILLION);
  }

  /** Half the scale away from the ideal, the whole elasticity is used; below that it is used in proportion. */
  lemma CoefficientScale(elasticity: Permill, delta: nat)
    ensures delta >= 500_000 ==> Coefficient(elasticity, delta) == elasticity
    ensures delta <= 500_000 ==>
              var c := Coefficient(elasticity, delta);
              c * 500_000 <= elasticity * delta < (c + 1) * 500_000
  {
    if delta <= 500_000 {
      var product := elasticity * delta;
      assert elasticity * (2 * delta) == 2 * product;
    }
  }

  /** The floor is the default fee scaled by the ideal, rounded down; on overflow it is a millionth of the default. */
  lemma FloorValue(params: Params)
    ensures var product := params.defaultFee * params.ideal;
            var f := Floor(params);
            if product <= U256_MAX then f * MILLION <= product < (f + 1) * MILLION
            else f * MILLION <= params.defaultFee < (f + 1) * MILLION
  {
  }

  /** A millionth part: `fee * c / 10^6` is at most `fee`, and at most `fee * c` millionths. */
  lemma Share(fee: nat, c: Permill)
    ensures fee * c / MILLION <= fee
    ensures fee * c / MILLION * MILLION <= fee * c
  {
    ProductBound(fee, fee, c, MILLION);
  }

  lemma DecreaseBound(floor: U256, c: Permill, fee: U256)
    requires fee >= floor
    ensures floor <= Decrease(floor, c, fee) <= fee
    ensures (fee - Decrease(floor, c, fee)) * MILLION <= fee * c
  {
    Share(fee, c);
  }

  lemma IncreaseBound(c: Permill, fee: U256)
    ensures fee <= Increase(c, fee)
    ensures (Increase(c, fee) - fee) * MILLION <= fee * c
  {
    Share(fee, c);
  }

  /**
   * The size of a decrease, from the floor up: the fee falls by exactly the rounded-down share `fee * c` millionths,
   * or to the floor if that share would take it lower.
   */
  lemma DecreaseExact(floor: U256, c: Permill, fee: U256)
    requires fee >= floor && fee * c <= U256_MAX
    ensures var d := fee - Decrease(floor, c, fee);
            if fee - d > floor then d * MILLION <= fee * c < (d + 1) * MILLION
            else Decrease(floor, c, fee) == floor && (fee - floor) * MILLION <= fee * c
    ensures fee * c < (fee - floor) * MILLION ==> Decrease(floor, c, fee) > floor
  {
    Share(fee, c);
    var share := fee * c;
    Quotient(share, MILLION);
  }

  /** The size of an increase: exactly the rounded-down share, up to the largest fee. */
  lemma IncreaseExact(c: Permill, fee: U256)
    requires fee * c <= U256_MAX
    ensures var d := Increase(c, fee) - fee;
            d >= 0 && if fee + d < U256_MAX then d * MILLION <= fee * c < (d + 1) * MILLION else d * MILLION <= fee * c
  {
    Share(fee, c);
    var share := fee * c;
    Quotient(share, MILLION);
  }

  /**
   * A block above the ideal, with the coefficient `c` that `CoefficientScale` gives: the fee rises by exactly
   * `fee * c` millionths, rounded down, up to the largest fee; if the product overflows it stays.
   */
  lemma NextFeeRises(params: Params, elasticity: Permill, usage: Permill, fee: U256)
    requires elasticity > 0 && usage > params.ideal
    ensures var c, next := Coefficient(elasticity, usage - params.ideal), NextFee(params, elasticity, usage, fee);
            && (Overflows(params, elasticity, usage, fee) <==> fee * c > U256_MAX)
            && (fee * c > U256_MAX ==> next == fee)
            && (fee * c <= U256_MAX && next < U256_MAX ==>
                (next - fee) * MILLION <= fee * c < (next - fee + 1) * MILLION)
  {
    var c := Coefficient(elasticity, usage - params.ideal);
    if fee * c <= U256_MAX {
      IncreaseExact(c, fee);
    }
  }

  /**
   * A block below the ideal: the fee falls by exactly that share, or to the floor if the share would take it lower
   * (or it was lower already); if the product overflows it stays.
   */
  lemma NextFeeFalls(params: Params, elasticity: Permill, usage: Permill, fee: U256)
    requires elasticity > 0 && usage < params.ideal
    ensures var c, next := Coefficient(elasticity, params.ideal - usage), NextFee(params, elasticity, usage, fee);
            var floor := Floor(params);
            && (Overflows(params, elasticity, usage, fee) <==> fee * c > U256_MAX)
            && (fee * c > U256_MAX ==> next == fee)
            && (fee * c <= U256_MAX && fee < floor ==> next == floor)
            && (fee * c <= U256_MAX && fee >= floor ==> FallsByShare(floor, c, fee, next))
  {
    var c := Coefficient(elasticity, params.ideal - usage);
    if fee * c <= U256_MAX {
      FallsExactly(Floor(params), c, fee);
    }
  }

  ghost predicate FallsByShare(floor: nat, c: nat, fee: nat, next: nat) {
    && floor <= next <= fee
    && (next > floor ==> (fee - next) * MILLION <= fee * c < (fee - next + 1) * MILLION)
    && (next == floor ==> (fee - floor) * MILLION <= fee * c)
  }

  lemma FallsExactly(floor: U256, c: Permill, fee: U256)
    requires fee * c <= U256_MAX
    ensures fee < floor ==> Decrease(floor, c, fee) == floor
    ensures fee >= floor ==> FallsByShare(floor, c, fee, Decrease(floor, c, fee))
  {
    Share(fee, c);
    if fee >= floor {
      DecreaseExact(floor, c, fee);
      DecreaseBound(floor, c, fee);
    }
  }

  lemma NextFeeStays(params: Params, elasticity: Permill, fee: U256)
    ensures NextFee(params, elasticity, params.ideal, fee) == fee
    ensures !Overflows(params, elasticity, params.ideal, fee)
  {
  }

  /** Without elasticity the fee is constant, wherever it is, and nothing overflows. */
  lemma ZeroElasticity(params: Params, usage: Permill, fee: U256)
    ensures NextFee(params, 0, usage, fee) == fee && !Overflows(params, 0, usage, fee)
  {
  }

  /** From the floor upwards a block never goes below the floor and moves the fee by at most `elasticity` of itself. */
  lemma NextFeeKeepsFloor(params: Params, elasticity: Permill, usage: Permill, fee: U256)
    requires fee >= Floor(params)
    ensures var next := NextFee(params, elasticity, usage, fee);
            && next >= Floor(params)
            && (usage >= params.ideal ==> next >= fee)
            && (usage <= params.ideal ==> next <= fee)
            && (next - fee) * MILLION <= fee * elasticity
            && (fee - next) * MILLION <= fee * elasticity
  {
    var delta: nat := if usage > params.ideal then usage - params.ideal else params.ideal - usage;
    var c := Coefficient(elasticity, delta);
    CoefficientBelowElasticity(elasticity, delta);
    ProductBound(fee, fee, c, elasticity);
    DecreaseBound(Floor(params), c, fee);
    IncreaseBound(c, fee);
  }

  function RunFee(params: Params, elasticity: Permill, usages: seq<Permill>, fee: U256): U256 {
    if |usages| == 0 then fee
    else NextFee(params, elasticity, usages[|usages| - 1], RunFee(params, elasticity, usages[..|usages| - 1], fee))
  }

  /** Over any sequence of blocks the fee stays at or above the floor once it is there. */
  lemma {:induction false} FloorHolds(params: Params, elasticity: Permill, usages: seq<Permill>, fee: U256)
    requires fee >= Floor(params)
    ensures RunFee(params, elasticity, usages, fee) >= Floor(params)
  {
    if |usages| > 0 {
      var n := |usages| - 1;
      FloorHolds(params, elasticity, usages[..n], fee);
      NextFeeKeepsFloor(params, elasticity, usages[n], RunFee(params, elasticity, usages[..n], fee));
    }
  }

  // Repeated empty blocks

  function DecreaseTimes(floor: U256, c: Permill, fee: U256, n: nat): U256
    decreases n
  {
    if n == 0 then fee else DecreaseTimes(floor, c, Decrease(floor, c, fee), n - 1)
  }

  /** The largest fee that a decrease by `c` rounds away to nothing. */
  function Sticking(c: Permill): nat
    requires c > 0
  {
    (MILLION - 1) / c
  }

  /** Where repeated decreases end. */
  function Rest(floor: U256, c: Permill, fee: U256): nat
    requires c > 0
  {
    Max(floor, Min(fee, Sticking(c)))
  }

  lemma StickingExact(c: Permill, fee: nat)
    requires c > 0
    ensures fee <= Sticking(c) <==> fee * c < MILLION
  {
    var s := Sticking(c);
    assert s * c <= MILLION - 1 < (s + 1) * c;
    if fee <= s {
      ProductBound(fee, s, c, c);
    } else {
      ProductBound(s + 1, fee, c, c);
    }
  }

  /** A decrease from above the sticking point is felt, but never jumps below it. */
  lemma DecreaseStep(c: Permill, fee: nat)
    requires c > 0 && fee > Sticking(c)
    ensures 1 <= fee * c / MILLION <= fee - Sticking(c)
  {
    var s := Sticking(c);
    var t := fee - s;
    StickingExact(c, fee);
    StickingExact(c, s);
    assert fee * c == s * c + t * c;
    ProductBound(t, t, c, MILLION);
    assert fee * c < (t + 1) * MILLION;
  }

  lemma DecreaseTowardsRest(floor: U256, c: Permill, fee: U256)
    requires c > 0 && fee * c <= U256_MAX
    ensures var next := Decrease(floor, c, fee);
            && Rest(floor, c, next) == Rest(floor, c, fee)
            && (next == fee <==> fee == Rest(floor, c, fee))
            && (fee >= floor ==> Rest(floor, c, fee) <= next <= fee)
            && (fee < floor ==> next == floor == Rest(floor, c, fee))
  {
    StickingExact(c, fee);
    Share(fee, c);
    if fee > Sticking(c) {
      DecreaseStep(c, fee);
    } else {
      assert fee * c / MILLION == 0;
    }
  }

  lemma {:induction false} AtRest(floor: U256, c: Permill, fee: U256, n: nat)
    requires c > 0 && fee == Rest(floor, c, fee) && (fee * c > U256_MAX || Decrease(floor, c, fee) == fee)
    ensures DecreaseTimes(floor, c, fee, n) == fee
  {
    if n > 0 {
      AtRest(floor, c, fee, n - 1);
    }
  }

  /** Repeated equal decreases end at the larger of the floor and the sticking point, and stay there. */
  lemma {:induction false} EmptyBlocksSettle(floor: U256, c: Permill, fee: U256, n: nat)
    requires c > 0 && fee * c <= U256_MAX && n > fee
    ensures DecreaseTimes(floor, c, fee, n) == Rest(floor, c, fee)
    decreases n
  {
    DecreaseTowardsRest(floor, c, fee);
    var next := Decrease(floor, c, fee);
    if next == fee {
      AtRest(floor, c, fee, n);
    } else if fee < floor {
      if next * c <= U256_MAX {
        DecreaseTowardsRest(floor, c, next);
      }
      AtRest(floor, c, next, n - 1);
    } else {
      ProductBound(next, fee, c, c);
      EmptyBlocksSettle(floor, c, next, n - 1);
    }
  }

  lemma {:induction false} NeverBelowRest(floor: U256, c: Permill, fee: U256, n: nat)
    requires c > 0 && fee * c <= U256_MAX && fee >= floor
    ensures DecreaseTimes(floor, c, fee, n) >= Rest(floor, c, fee)
    decreases n
  {
    if n > 0 {
      DecreaseTowardsRest(floor, c, fee);
      var next := Decrease(floor, c, fee);
      ProductBound(next, fee, c, c);
      NeverBelowRest(floor, c, next, n - 1);
    }
  }

  /**
   * Repeated empty blocks bring the fee down to the floor exactly when it is there already or one unit above the
   * floor is still enough for a decrease of one.
   */
  lemma FloorReachedExactly(floor: U256, c: Permill, fee: U256)
    requires c > 0 && fee * c <= U256_MAX && fee >= floor
    ensures (exists n: nat :: DecreaseTimes(floor, c, fee, n) == floor) <==> fee == floor || (floor + 1) * c >= MILLION
  {
    StickingExact(c, floor + 1);
    StickingExact(c, fee);
    if Rest(floor, c, fee) == floor {
      EmptyBlocksSettle(floor, c, fee, fee + 1);
      assert DecreaseTimes(floor, c, fee, fee + 1) == floor;
    }
    forall n: nat
      ensures DecreaseTimes(floor, c, fee, n) >= Rest(floor, c, fee)
    {
      NeverBelowRest(floor, c, fee, n);
    }
  }

  /** If the product overflows, empty blocks leave the fee where it is for ever. */
  lemma {:induction false} OverflowFreezes(floor: U256, c: Permill, fee: U256, n: nat)
    requires fee * c > U256_MAX
    ensures DecreaseTimes(floor, c, fee, n) == fee && IncreaseTimes(c, fee, n) == fee
  {
    if n > 0 {
      OverflowFreezes(floor, c, fee, n - 1);
    }
  }

  // How fast empty blocks settle

  lemma {:induction false} DecreaseTimesSum(floor: U256, c: Permill, fee: U256, a: nat, b: nat)
    ensures DecreaseTimes(floor, c, fee, a + b) == DecreaseTimes(floor, c, DecreaseTimes(floor, c, fee, a), b)
    decreases a
  {
    if a > 0 {
      DecreaseTimesSum(floor, c, Decrease(floor, c, fee), a - 1, b);
    }
  }

  /** Along the way the resting point, the floor and the product's fit are kept, and the fee never rises. */
  lemma {:induction false} OnTheWay(floor: U256, c: Permill, fee: U256, n: nat)
    requires c > 0 && fee * c <= U256_MAX && fee >= floor
    ensures var after := DecreaseTimes(floor, c, fee, n);
            && Rest(floor, c, fee) <= after <= fee && after >= floor && after * c <= U256_MAX
            && Rest(floor, c, after) == Rest(floor, c, fee)
    decreases n
  {
    DecreaseTowardsRest(floor, c, fee);
    if n > 0 {
      var next := Decrease(floor, c, fee);
      ProductBound(next, fee, c, c);
      OnTheWay(floor, c, next, n - 1);
    }
  }

  /** While more than half of the excess `x` over the resting point is left, a block takes off at least `step`. */
  lemma FallsByStep(floor: U256, c: Permill, fee: U256, x: nat, step: nat)
    requires c > 0 && fee * c <= U256_MAX && fee >= floor
    requires 2 * (fee - Rest(floor, c, fee)) > x && step * 2 * MILLION <= Max(2 * MILLION, x * c)
    ensures var next := Decrease(floor, c, fee); next == Rest(floor, c, fee) || next + step <= fee
  {
    var rest, next := Rest(floor, c, fee), Decrease(floor, c, fee);
    var e := fee - rest;
    DecreaseTowardsRest(floor, c, fee);
    DecreaseStep(c, fee);
    DecreaseExact(floor, c, fee);
    if next > floor {
      ShareAtLeast(fee, e, c, x, step, fee - next);
    }
  }

  lemma ShareAtLeast(fee: nat, e: nat, c: nat, x: nat, step: nat, d: nat)
    requires e <= fee && 2 * e > x && d >= 1 && fee * c < (d + 1) * MILLION
    requires step * 2 * MILLION <= Max(2 * MILLION, x * c)
    ensures d >= step
  {
    if step > 1 {
      ProductBound(x, 2 * fee, c, c);
      assert x * c <= 2 * (fee * c);
    }
  }

  lemma {:induction false} FallsSteadily(floor: U256, c: Permill, fee: U256, x: nat, step: nat, n: nat)
    requires c > 0 && fee * c <= U256_MAX && fee >= floor
    requires step * 2 * MILLION <= Max(2 * MILLION, x * c)
    ensures var e := DecreaseTimes(floor, c, fee, n) - Rest(floor, c, fee);
            2 * e <= x || e + n * step <= fee - Rest(floor, c, fee) || e == 0
    decreases n
  {
    OnTheWay(floor, c, fee, n);
    if n > 0 {
      var rest := Rest(floor, c, fee);
      var next := Decrease(floor, c, fee);
      OnTheWay(floor, c, fee, 1);
      assert DecreaseTimes(floor, c, fee, 1) == DecreaseTimes(floor, c, next, 0);
      FallsSteadily(floor, c, next, x, step, n - 1);
      OnTheWay(floor, c, next, n - 1);
      if 2 * (fee - rest) > x {
        FallsByStep(floor, c, fee, x, step);
        assert n * step == (n - 1) * step + step;
      }
    }
  }

  /** Blocks after which the excess over the resting point has at least halved. */
  function HalfLife(c: Permill): nat
    requires c > 0
  {
    2 * MILLION / c + 1
  }

  /** The largest steady step, and that `HalfLife` of them cover half of `x`. */
  lemma HalfCovered(c: Permill, x: nat) returns (step: nat)
    requires c > 0
    ensures step * 2 * MILLION <= Max(2 * MILLION, x * c)
    ensures 2 * (HalfLife(c) * step) >= x
  {
    var k := HalfLife(c);
    Quotient(2 * MILLION, c);
    assert k * c > 2 * MILLION;
    var q := x * c / (2 * MILLION);
    Quotient(x * c, 2 * MILLION);
    if q == 0 {
      step := 1;
      assert x * c < k * c;
      Cancel(x, k, c);
    } else {
      step := q;
      assert x * c < (q + 1) * (2 * MILLION) <= 2 * q * (2 * MILLION);
      ProductBound(2 * q, 2 * q, 2 * MILLION, k * c);
      assert 2 * q * (k * c) == 2 * (k * q) * c;
      Cancel(x, 2 * (k * q), c);
    }
  }

  lemma Cancel(a: nat, b: nat, c: nat)
    requires c > 0 && a * c < b * c
    ensures a < b
  {
    if a >= b {
      ProductBound(b, a, c, c);
    }
  }

  lemma Halves(floor: U256, c: Permill, fee: U256)
    requires c > 0 && fee * c <= U256_MAX && fee >= floor
    ensures var rest := Rest(floor, c, fee);
            2 * (DecreaseTimes(floor, c, fee, HalfLife(c)) - rest) <= fee - rest
  {
    var x := fee - Rest(floor, c, fee);
    OnTheWay(floor, c, fee, 0);
    var step := HalfCovered(c, x);
    FallsSteadily(floor, c, fee, x, step, HalfLife(c));
    OnTheWay(floor, c, fee, HalfLife(c));
  }

  function Pow2(n: nat): nat {
    if n == 0 then 1 else 2 * Pow2(n - 1)
  }

  /** The blocks of `j` half-lives. */
  function HalfLives(c: Permill, j: nat): nat
    requires c > 0
  {
    if j == 0 then 0 else HalfLife(c) + HalfLives(c, j - 1)
  }

  lemma {:induction false} HalfLivesTotal(c: Permill, j: nat)
    requires c > 0
    ensures HalfLives(c, j) == j * HalfLife(c)
  {
    if j > 0 {
      HalfLivesTotal(c, j - 1);
    }
  }

  /** An excess below 2^j is gone after `j` half-lives. */
  lemma {:induction false} SettlesInHalfLives(floor: U256, c: Permill, fee: U256, j: nat)
    requires c > 0 && fee * c <= U256_MAX && fee >= floor && fee - Rest(floor, c, fee) < Pow2(j)
    ensures DecreaseTimes(floor, c, fee, HalfLives(c, j)) == Rest(floor, c, fee)
    decreases j
  {
    OnTheWay(floor, c, fee, 0);
    if j > 0 {
      var mid := DecreaseTimes(floor, c, fee, HalfLife(c));
      Halves(floor, c, fee);
      OnTheWay(floor, c, fee, HalfLife(c));
      SettlesInHalfLives(floor, c, mid, j - 1);
      DecreaseTimesSum(floor, c, fee, HalfLife(c), HalfLives(c, j - 1));
    }
  }

  lemma Pow2Doubles(a: nat, value: nat)
    requires Pow2(a) == value
    ensures Pow2(2 * a) == value * value
  {
    Pow2Sum(a, a);
  }

  lemma Pow2Value()
    ensures Pow2(256) == U256_MAX + 1
  {
    assert Pow2(1) == 2 * Pow2(0);
    Pow2Doubles(1, 2);
    Pow2Doubles(2, 0x4);
    Pow2Doubles(4, 0x10);
    Pow2Doubles(8, 0x100);
    Pow2Doubles(16, 0x1_0000);
    Pow2Doubles(32, 0x1_0000_0000);
    Pow2Doubles(64, 0x1_0000_0000_0000_0000);
    Pow2Doubles(128, 0x1_0000_0000_0000_0000_0000_0000_0000_0000);
  }

  lemma {:induction false} Pow2Sum(a: nat, b: nat)
    ensures Pow2(a + b) == Pow2(a) * Pow2(b)
  {
    if a > 0 {
      Pow2Sum(a - 1, b);
      assert Pow2(a + b) == 2 * Pow2(a - 1 + b);
      assert Pow2(a) * Pow2(b) == 2 * (Pow2(a - 1) * Pow2(b));
    }
  }

  /**
   * How soon: from any fee whose product fits, equal empty blocks are at rest after 256 half-lives, each of
   * 2 * 10^6 / c + 1 blocks (17 at the full default elasticity of 12.5%).
   */
  lemma SettlesSoon(floor: U256, c: Permill, fee: U256, n: nat)
    requires c > 0 && fee * c <= U256_MAX && fee >= floor && n >= 256 * (2_000_000 / c + 1)
    ensures DecreaseTimes(floor, c, fee, n) == Rest(floor, c, fee)
  {
    Pow2Value();
    OnTheWay(floor, c, fee, 0);
    SettlesInHalfLives(floor, c, fee, 256);
    HalfLivesTotal(c, 256);
    var k := HalfLives(c, 256);
    var rest := DecreaseTimes(floor, c, fee, k);
    OnTheWay(floor, c, fee, k);
    DecreaseTimesSum(floor, c, fee, k, n - k);
    OnTheWay(floor, c, rest, n - k);
  }

  // Repeated full blocks

  function IncreaseTimes(c: Permill, fee: U256, n: nat): U256
    decreases n
  {
    if n == 0 then fee else IncreaseTimes(c, Increase(c, fee), n - 1)
  }

  /** While the product fits and is worth a unit, an increase with `c >= 2` is strict and does not saturate. */
  lemma IncreaseStrict(c: Permill, fee: U256)
    requires MILLION <= fee * c <= U256_MAX
    ensures c >= 2 ==> fee < Increase(c, fee) == fee + fee * c / MILLION
    ensures c == 1 ==> Increase(c, fee) == Min(fee + fee / MILLION, U256_MAX)
    ensures c == 1 ==> (Increase(c, fee) == fee <==> fee == U256_MAX)
  {
    Share(fee, c);
    if c >= 2 {
      ProductBound(fee, fee, 2, c);
      assert fee + fee * c / MILLION <= 2 * fee <= U256_MAX;
    }
  }

  /** Where full blocks stop moving the fee: the product overflows, or (for `c == 1`) the fee is at its maximum. */
  predicate Topped(c: Permill, fee: U256) {
    if c >= 2 then fee * c > U256_MAX else fee == U256_MAX
  }

  /** Repeated full blocks drive a fee with `fee * c >= 10^6` up, strictly, until it is topped; then it stays. */
  lemma {:induction false} FullBlocksTop(c: Permill, fee: U256) returns (n: nat)
    requires c > 0 && fee * c >= MILLION
    ensures Topped(c, IncreaseTimes(c, fee, n))
    ensures forall k :: 0 <= k < n ==> IncreaseTimes(c, fee, k) < IncreaseTimes(c, fee, k + 1)
    ensures forall k :: n <= k ==> IncreaseTimes(c, fee, k) == IncreaseTimes(c, fee, n)
    decreases U256_MAX - fee
  {
    if Topped(c, fee) {
      n := 0;
      forall k: nat
        ensures IncreaseTimes(c, fee, k) == fee
      {
        ToppedStays(c, fee, k);
      }
    } else {
      IncreaseStrict(c, fee);
      var next := Increase(c, fee);
      ProductBound(fee, next, c, c);
      var m := FullBlocksTop(c, next);
      n := m + 1;
      forall k | 0 <= k < n
        ensures IncreaseTimes(c, fee, k) < IncreaseTimes(c, fee, k + 1)
      {
        assert k > 0 ==> IncreaseTimes(c, next, k - 1) < IncreaseTimes(c, next, k - 1 + 1);
      }
      forall k | n <= k
        ensures IncreaseTimes(c, fee, k) == IncreaseTimes(c, fee, n)
      {
        assert IncreaseTimes(c, next, k - 1) == IncreaseTimes(c, next, m);
      }
    }
  }

  lemma {:induction false} ToppedStays(c: Permill, fee: U256, k: nat)
    requires c > 0 && Topped(c, fee)
    ensures IncreaseTimes(c, fee, k) == fee
  {
    if k > 0 {
      ToppedStays(c, fee, k - 1);
    }
  }

  lemma SmallIncrease(c: Permill, fee: U256)
    requires fee * c < MILLION
    ensures Increase(c, fee) == fee
  {
    var share := fee * c;
    assert share / MILLION == 0;
  }

  /** A fee too small for an increase of one never grows. */
  lemma {:induction false} SmallFeeStuck(c: Permill, fee: U256, n: nat)
    requires fee * c < MILLION
    ensures IncreaseTimes(c, fee, n) == fee
  {
    if n > 0 {
      SmallIncrease(c, fee);
      SmallFeeStuck(c, fee, n - 1);
    }
  }

  // Back to blocks

  function Repeat(usage: Permill, n: nat): (r: seq<Permill>)
    ensures |r| == n && forall i :: 0 <= i < n ==> r[i] == usage
  {
    seq(n, _ => usage)
  }

  lemma {:induction false} DecreaseTimesLast(floor: U256, c: Permill, fee: U256, n: nat)
    ensures DecreaseTimes(floor, c, fee, n + 1) == Decrease(floor, c, DecreaseTimes(floor, c, fee, n))
    decreases n
  {
    if n > 0 {
      DecreaseTimesLast(floor, c, Decrease(floor, c, fee), n - 1);
    }
  }

  lemma {:induction false} IncreaseTimesLast(c: Permill, fee: U256, n: nat)
    ensures IncreaseTimes(c, fee, n + 1) == Increase(c, IncreaseTimes(c, fee, n))
    decreases n
  {
    if n > 0 {
      IncreaseTimesLast(c, Increase(c, fee), n - 1);
    }
  }

  /** Blocks of one and the same fullness repeat one decrease or one increase. */
  lemma {:induction false} RepeatedBlocks(params: Params, elasticity: Permill, usage: Permill, fee: U256, n: nat)
    requires elasticity > 0
    ensures usage < params.ideal ==>
              RunFee(params, elasticity, Repeat(usage, n), fee) ==
              DecreaseTimes(Floor(params), Coefficient(elasticity, params.ideal - usage), fee, n)
    ensures usage > params.ideal ==>
              RunFee(params, elasticity, Repeat(usage, n), fee) ==
              IncreaseTimes(Coefficient(elasticity, usage - params.ideal), fee, n)
  {
    if n > 0 {
      assert Repeat(usage, n)[..n - 1] == Repeat(usage, n - 1);
      RepeatedBlocks(params, elasticity, usage, fee, n - 1);
      if usage < params.ideal {
        DecreaseTimesLast(Floor(params), Coefficient(elasticity, params.ideal - usage), fee, n - 1);
      } else if usage > params.ideal {
        IncreaseTimesLast(Coefficient(elasticity, usage - params.ideal), fee, n - 1);
      }
    }
  }
}
