/** Fixed-point arithmetic with 18 decimals on unsigned words. `limit` is the first value that does not fit a word: the
    source's words have 256 bits, its limit is `TWO_256`. Nothing but the largest power of ten depends on which one. */
module FixedPoint {
  import opened Arithmetic
  import opened Common

  const TWO_256: nat := 0x1_0000_0000_0000_0000_0000_0000_0000_0000_0000_0000_0000_0000_0000_0000_0000_0000
  const ONE18: nat := 1_000_000_000_000_000_000
  const FIXED_POINT_DECIMALS: nat := 18

  datatype MathError = Overflow | FromUintError

  type Outcome = Result<nat, MathError>

  /** `x` fits a word. */
  predicate Fits(x: nat, limit: nat) { x < limit }

  function Pow10(k: nat): (r: nat)
    ensures r > 0
  {
    if k == 0 then 1 else 10 * Pow10(k - 1)
  }

  function CheckedMul(a: nat, b: nat, limit: nat): Option<nat> { if a * b < limit then Some(a * b) else None }

  function CheckedDiv(a: nat, b: nat): Option<nat> { if b == 0 then None else Some(a / b) }

  function OrOverflow(r: Option<nat>): Outcome {
    match r
    case Some(x) => Ok(x)
    case None => Err(Overflow)
  }

  /** The scaling factor as the source computes it: a power that wraps around in a word. */
  function Factor(k: nat, limit: nat): nat
    requires limit > 0
  {
    Pow10(k) % limit
  }

  function ScaleUp(x: nat, k: nat, limit: nat): Outcome
    requires limit > 0
  {
    OrOverflow(CheckedMul(x, Factor(k, limit), limit))
  }

  function ScaleDown(x: nat, k: nat, limit: nat): Outcome
    requires limit > 0
  {
    OrOverflow(CheckedDiv(x, Factor(k, limit)))
  }

  function Scale18(x: nat, decimals: nat, limit: nat): Outcome
    requires limit > 0
  {
    if decimals > FIXED_POINT_DECIMALS then ScaleDown(x, decimals - FIXED_POINT_DECIMALS, limit)
    else if decimals < FIXED_POINT_DECIMALS then ScaleUp(x, FIXED_POINT_DECIMALS - decimals, limit)
    else Ok(x)
  }

  /** The product is two words wide; only the quotient has to fit one. */
  function MulDiv(a: nat, b: nat, d: nat, limit: nat): Outcome {
    match CheckedDiv(a * b, d)
    case None => Err(Overflow)
    case Some(q) => if q < limit then Ok(q) else Err(FromUintError)
  }

  function Mul18(a: nat, b: nat, limit: nat): Outcome { MulDiv(a, b, ONE18, limit) }

  function Div18(a: nat, b: nat, limit: nat): Outcome { MulDiv(a, ONE18, b, limit) }

  /** The product of two words fits two words. */
  lemma {:induction false} WideProductFits(a: nat, b: nat, limit: nat)
    requires Fits(a, limit) && Fits(b, limit)
    ensures a * b < limit * limit
  {
    MulMonotone(b, limit, a);
    assert a * limit < limit * limit;
  }

  /** `MulDiv` succeeds with the floor of the exact quotient, and fails exactly when there is no divisor or the floor
      does not fit. */
  lemma {:induction false} MulDivIsFloor(a: nat, b: nat, d: nat, limit: nat)
    ensures MulDiv(a, b, d, limit).Ok? <==> d > 0 && a * b < limit * d
    ensures MulDiv(a, b, d, limit).Ok? ==>
      MulDiv(a, b, d, limit).value * d <= a * b < MulDiv(a, b, d, limit).value * d + d
    ensures d == 0 ==> MulDiv(a, b, d, limit) == Err(Overflow)
    ensures d > 0 && !MulDiv(a, b, d, limit).Ok? ==> MulDiv(a, b, d, limit) == Err(FromUintError)
  {
    if d > 0 {
      DivBounds(a * b, d);
      FloorBelow(a * b, d, limit);
    }
  }

  lemma {:induction false} FloorBelow(x: nat, d: nat, m: nat)
    requires d > 0
    ensures x / d < m <==> x < m * d
  {
    var q := x / d;
    DivBounds(x, d);
    if q < m {
      MulMonotone(q + 1, m, d);
    } else {
      MulMonotone(m, q, d);
    }
  }

  lemma {:induction false} BelowMultiple(a: nat, limit: nat, b: nat)
    requires a < limit && b > 0
    ensures a * b < limit * b
  {
    MulMonotone(a + 1, limit, b);
    assert (a + 1) * b == a * b + b;
  }

  /** What two floors in a row lose: `p` is below `a * b` by less than `one`, and `r` is the floor of `p / b`. */
  lemma {:induction false} FloorLoss(a: nat, b: nat, p: nat, one: nat, r: nat)
    requires b > 0 && p <= a * b < p + one && r * b <= p < r * b + b
    ensures r <= a && (a - r) * b < one + b
  {
    OneMultiple(r - a, b);
    assert (r - a) * b == r * b - a * b;
    assert (a - r) * b == a * b - r * b;
  }

  /** Multiplying and dividing at 18 decimals: the floor of the exact result, where it fits a word; else an error. */
  lemma {:induction false} DecimalFloor(a: nat, b: nat, limit: nat)
    ensures Mul18(a, b, limit).Ok? <==> a * b < limit * 1_000_000_000_000_000_000
    ensures var r := Mul18(a, b, limit); r.Ok? ==>
      r.value * 1_000_000_000_000_000_000 <= a * b < r.value * 1_000_000_000_000_000_000 + 1_000_000_000_000_000_000
    ensures Div18(a, b, limit).Ok? <==> b > 0 && a * 1_000_000_000_000_000_000 < limit * b
    ensures var r := Div18(a, b, limit); r.Ok? ==>
      r.value * b <= a * 1_000_000_000_000_000_000 < r.value * b + b
  {
    MulDivIsFloor(a, b, ONE18, limit);
    MulDivIsFloor(a, ONE18, b, limit);
  }

  /** The source's words have 256 bits: their limit is the 256th power of 2. */
  lemma {:induction false} WordLimit()
    ensures TWO_256 == 115792089237316195423570985008687907853269984665640564039457584007913129639936
  {
  }

  /** Dividing after multiplying never gains, and loses less than `(10^18 + b) / b`. */
  lemma {:induction false} MulThenDiv(a: nat, b: nat, limit: nat)
    requires Fits(a, limit) && b > 0 && Mul18(a, b, limit).Ok?
    ensures var r := Div18(Mul18(a, b, limit).value, b, limit);
      r.Ok? && r.value <= a && (a - r.value) * b < 1_000_000_000_000_000_000 + b
  {
    var m := Mul18(a, b, limit).value;
    MulDivIsFloor(a, b, ONE18, limit);
    BelowMultiple(a, limit, b);
    MulDivIsFloor(m, ONE18, b, limit);
    FloorLoss(a, b, m * ONE18, ONE18, Div18(m, b, limit).value);
  }

  // ----- scaling

  lemma {:induction false} PowSplits(j: nat, k: nat)
    ensures Pow10(j + k) == Pow10(j) * Pow10(k)
  {
    if j > 0 {
      PowSplits(j - 1, k);
      assert 10 * Pow10(j - 1) * Pow10(k) == 10 * (Pow10(j - 1) * Pow10(k));
    }
  }

  lemma {:induction false} PowMonotone(j: nat, k: nat)
    requires j <= k
    ensures Pow10(j) <= Pow10(k)
  {
    if j < k {
      PowMonotone(j, k - 1);
    }
  }

  lemma {:induction false} PowOf19()
    ensures Pow10(19) == 10_000_000_000_000_000_000
  {
    assert Pow10(1) == 10;
    PowSplits(1, 1);
    PowSplits(2, 2);
    PowSplits(4, 4);
    PowSplits(8, 8);
    PowSplits(16, 2);
    PowSplits(18, 1);
  }

  lemma {:induction false} PowOfDouble(n: nat, power: nat)
    requires Pow10(n) == power
    ensures Pow10(2 * n) == power * power
  {
    PowSplits(n, n);
  }

  /** The powers next to `2^256`, as `10^k` and `10^(k + 1)`. */
  lemma {:induction false} PowersAroundLimit(k: nat)
    requires k == 77
    ensures Pow10(k) < TWO_256 <= Pow10(k + 1)
  {
    var n := k - 58;
    PowOf19();
    PowOfDouble(n, 10_000_000_000_000_000_000);
    PowOfDouble(2 * n, 100_000_000_000_000_000_000_000_000_000_000_000_000);
    assert Pow10(4 * n + 1) == 10 * Pow10(4 * n);
    assert Pow10(k + 1) == 10 * Pow10(k);
  }

  lemma {:induction false} SmallRemainder(x: nat, m: nat)
    requires x < m
    ensures x % m == x
  {
  }

  /** `10^77` is the largest power that fits 256 bits. */
  lemma {:induction false} LargestPower(k: nat)
    ensures k <= 77 <==> Pow10(k) < TWO_256
  {
    var last: nat :| last == 77;
    PowersAroundLimit(last);
    if k <= last {
      PowMonotone(k, last);
    } else {
      PowMonotone(last + 1, k);
    }
  }

  /** Scaling down undoes scaling up, as long as the power of ten fits. */
  lemma {:induction false} DownAfterUp(x: nat, k: nat, limit: nat)
    requires Fits(x, limit) && Pow10(k) < limit
    ensures ScaleUp(x, k, limit).Ok? <==> x * Pow10(k) < limit
    ensures ScaleUp(x, k, limit).Err? ==> ScaleUp(x, k, limit) == Err(Overflow)
    ensures ScaleUp(x, k, limit).Ok? ==> ScaleUp(x, k, limit).value == x * Pow10(k)
    ensures ScaleUp(x, k, limit).Ok? ==> ScaleDown(ScaleUp(x, k, limit).value, k, limit) == Ok(x)
  {
    SmallRemainder(Pow10(k), limit);
    DivUnique(x * Pow10(k), Pow10(k), x);
  }

  /** Scaling up after scaling down never gains and loses less than `10^k`. */
  lemma {:induction false} UpAfterDown(x: nat, k: nat, limit: nat)
    requires Fits(x, limit) && Pow10(k) < limit
    ensures ScaleDown(x, k, limit).Ok?
    ensures var r := ScaleUp(ScaleDown(x, k, limit).value, k, limit); r.Ok? && r.value <= x < r.value + Pow10(k)
  {
    SmallRemainder(Pow10(k), limit);
    DivBounds(x, Pow10(k));
  }

  /** Scaling down in two steps is scaling down once. */
  lemma {:induction false} DownTwice(x: nat, j: nat, k: nat, limit: nat)
    requires Fits(x, limit) && Pow10(j + k) < limit
    ensures ScaleDown(x, j, limit).Ok?
    ensures ScaleDown(ScaleDown(x, j, limit).value, k, limit) == ScaleDown(x, j + k, limit)
  {
    PowMonotone(j, j + k);
    PowMonotone(k, j + k);
    SmallRemainder(Pow10(j), limit);
    SmallRemainder(Pow10(k), limit);
    SmallRemainder(Pow10(j + k), limit);
    PowSplits(j, k);
    DivTwice(x, Pow10(j), Pow10(k));
  }

  lemma {:induction false} DivTwice(x: nat, a: nat, b: nat)
    requires a > 0 && b > 0
    ensures a * b > 0 && x / a / b == x / (a * b)
  {
    var y := x / a;
    var z := y / b;
    DivBounds(x, a);
    DivBounds(y, b);
    NestedBounds(x, a, b, y, z);
    DivUnique(x, a * b, z);
  }

  lemma {:induction false} NestedBounds(x: nat, a: nat, b: nat, y: nat, z: nat)
    requires a > 0 && b > 0 && y * a <= x < y * a + a && z * b <= y && y + 1 <= z * b + b
    ensures a * b > 0 && z * (a * b) <= x < z * (a * b) + a * b
  {
    MulMonotone(z * b, y, a);
    MulMonotone(y + 1, z * b + b, a);
    Regroup(z, b, a);
  }

  lemma {:induction false} Regroup(z: int, b: int, a: int)
    ensures z * b * a == z * (a * b) && (z * b + b) * a == z * (a * b) + a * b
  {
    assert z * b * a == z * (b * a);
  }

  /** Bringing a value to 18 decimals: exact for up to 18 decimals, and otherwise the floor. */
  lemma {:induction false} Scale18Meaning(x: nat, decimals: nat, limit: nat)
    requires Fits(x, limit) && Pow10(if decimals > 18 then decimals - 18 else 18 - decimals) < limit
    ensures decimals <= 18 ==>
      (Scale18(x, decimals, limit).Ok? <==> x * Pow10(18 - decimals) < limit) &&
      (Scale18(x, decimals, limit).Ok? ==> Scale18(x, decimals, limit).value == x * Pow10(18 - decimals))
    ensures decimals > 18 ==>
      Scale18(x, decimals, limit).Ok? &&
      Scale18(x, decimals, limit).value * Pow10(decimals - 18) <= x <
        Scale18(x, decimals, limit).value * Pow10(decimals - 18) + Pow10(decimals - 18)
  {
    if decimals > 18 {
      SmallRemainder(Pow10(decimals - 18), limit);
      DivBounds(x, Pow10(decimals - 18));
    } else {
      SmallRemainder(Pow10(18 - decimals), limit);
      assert Pow10(0) == 1;
    }
  }

  /** Scaling down divides every value by the power of ten exactly if that power fits a word; otherwise it already goes
      wrong for the wrapped factor itself, or for 0 if that is 0. */
  lemma {:induction false} ScaleDownIsExact(k: nat, limit: nat)
    requires limit > 0
    ensures (forall x: nat :: Fits(x, limit) ==> ScaleDown(x, k, limit) == Ok(x / Pow10(k))) <==> Pow10(k) < limit
  {
    var f := Factor(k, limit);
    if Pow10(k) < limit {
      SmallRemainder(Pow10(k), limit);
    } else if f > 0 {
      assert Fits(f, limit) && ScaleDown(f, k, limit) == Ok(f / f);
      DivUnique(f, f, 1);
      DivUnique(f, Pow10(k), 0);
    } else {
      assert Fits(0, limit) && ScaleDown(0, k, limit) == Err(Overflow);
    }
  }

  /** Scaling up multiplies by the power of ten, whenever it succeeds, exactly if that power fits a word; otherwise the
      factor has wrapped around and scaling up 1 already goes wrong. */
  lemma {:induction false} ScaleUpIsExact(k: nat, limit: nat)
    requires limit > 1
    ensures (forall x: nat :: Fits(x, limit) && ScaleUp(x, k, limit).Ok? ==> ScaleUp(x, k, limit).value == x * Pow10(k))
            <==> Pow10(k) < limit
  {
    if Pow10(k) < limit {
      SmallRemainder(Pow10(k), limit);
    } else {
      DivBounds(Pow10(k), limit);
      assert Fits(1, limit) && ScaleUp(1, k, limit) == Ok(Factor(k, limit));
    }
  }
}
