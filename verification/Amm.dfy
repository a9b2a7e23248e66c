/** Integer quotes of the constant-product AMMs and the pump.fun bonding curve.
    Machine widths are explicit: arguments and results are u64, intermediate values
    u128 with the saturating, checked or wrapping operation the quote uses. */
module Amm {
  import opened Common

  const U64_MAX: int := 0xFFFF_FFFF_FFFF_FFFF
  const U128_MAX: int := 0xFFFF_FFFF_FFFF_FFFF_FFFF_FFFF_FFFF_FFFF
  const BPS_DENOM: int := 10_000

  type U64 = x: int | 0 <= x <= 0xFFFF_FFFF_FFFF_FFFF

  // u128 operations ---------------------------------------------------------

  function Wrap(x: int): (r: nat) {
    x % (U128_MAX + 1)
  }

  function SatMul(a: nat, b: nat): (r: nat) {
    if a * b > U128_MAX then U128_MAX else a * b
  }

  /** Floor division on naturals, with its defining bounds. */
  function FloorDiv(n: nat, d: nat): (q: nat)
    requires d > 0
    ensures q * d <= n < q * d + d
  {
    n / d
  }

  /** Ceiling division on naturals, as the floor plus one unless the division is exact. */
  function CeilDiv(n: nat, d: nat): (q: nat)
    requires d > 0
    ensures n <= q * d < n + d
  {
    var q := FloorDiv(n, d);
    if n % d != 0 then q + 1 else q
  }

  // The quotes --------------------------------------------------------------

  function FeeDen(feeDenominator: U64): (d: nat)
    ensures 0 < d <= U64_MAX
  {
    if feeDenominator == 0 then BPS_DENOM else feeDenominator
  }

  function AfterFee(amountIn: U64, feeNumerator: U64, feeDenominator: U64): (a: nat) {
    var feeDen := FeeDen(feeDenominator);
    FloorDiv(SatMul(amountIn, Wrap(feeDen - feeNumerator)), feeDen)
  }

  function ConstantProductOut(amountIn: U64, reserveIn: U64, reserveOut: U64,
                              feeNumerator: U64, feeDenominator: U64): (out: U64)
  {
    if amountIn == 0 || reserveIn == 0 || reserveOut == 0 then 0
    else
      var afterFee := AfterFee(amountIn, feeNumerator, feeDenominator);
      var numerator := SatMul(afterFee, reserveOut);
      var denominator := Wrap(reserveIn + afterFee);
      if denominator == 0 then 0
      else
        var out := FloorDiv(numerator, denominator);
        if out > U64_MAX then U64_MAX else out
  }

  function ConstantProductIn(amountOut: U64, reserveIn: U64, reserveOut: U64,
                             feeNumerator: U64, feeDenominator: U64): (amountIn: U64)
  {
    if amountOut == 0 || reserveIn == 0 || reserveOut == 0 || amountOut >= reserveOut then U64_MAX
    else
      var feeDen := FeeDen(feeDenominator);
      var numerator := Wrap(SatMul(reserveIn, amountOut) * feeDen);
      var denominator := Wrap((reserveOut - amountOut) * Wrap(feeDen - feeNumerator));
      RoundedUpInput(numerator, denominator)
  }

  function RoundedUpInput(numerator: nat, denominator: nat): (amountIn: U64) {
    if denominator == 0 then U64_MAX
    else
      var amountIn := Wrap(FloorDiv(numerator, denominator) + 1);
      if amountIn > U64_MAX then U64_MAX else amountIn
  }

  function PumpBuyCost(tokensOut: U64, vs: U64, vt: U64): (cost: Option<U64>) {
    if tokensOut == 0 then Some(0)
    else if tokensOut >= vt then None
    else if vs * tokensOut > U128_MAX then None
    else
      var cost := CeilDiv(vs * tokensOut, vt - tokensOut);
      if cost > U64_MAX then None else Some(cost)
  }

  function PumpTokensForSol(solIn: U64, vs: U64, vt: U64): (tokens: Option<U64>) {
    if solIn == 0 then Some(0)
    else if vt * solIn > U128_MAX then None
    else
      var tokens := FloorDiv(vt * solIn, vs + solIn);
      if tokens > U64_MAX then None else Some(tokens)
  }

  function PumpSolForTokens(tokensIn: U64, vs: U64, vt: U64): (sol: Option<U64>) {
    if tokensIn == 0 then Some(0)
    else if vs * tokensIn > U128_MAX then None
    else
      var sol := FloorDiv(vs * tokensIn, vt + tokensIn);
      if sol > U64_MAX then None else Some(sol)
  }

  // Arithmetic facts --------------------------------------------------------

  lemma MulMono(a: int, b: int, c: int, d: int)
    requires 0 <= a <= b && 0 <= c <= d
    ensures a * c <= b * d
  {
  }

  lemma Positive(x: int, y: int)
    requires x > 0 && y > 0
    ensures x * y > 0
  {
  }

  lemma WrapSmall(x: int)
    requires 0 <= x <= U128_MAX
    ensures Wrap(x) == x
  {
  }

  lemma U64Product(a: U64, b: U64)
    ensures 0 <= a * b <= U128_MAX
  {
    MulMono(a, U64_MAX, b, U64_MAX);
  }

  /** Floor division is the right adjoint of multiplication. */
  lemma FloorAdjoint(n: nat, d: nat, q: int)
    requires d > 0
    ensures q * d <= n <==> q <= FloorDiv(n, d)
  {
    Adjoint(n, d, FloorDiv(n, d) + 1, q);
  }

  /** Ceiling division is the left adjoint of multiplication. */
  lemma CeilAdjoint(n: nat, d: nat, q: int)
    requires d > 0
    ensures n <= q * d <==> CeilDiv(n, d) <= q
  {
    Adjoint(n - 1, d, CeilDiv(n, d), q);
  }

  lemma Adjoint(n: int, d: nat, c: int, q: int)
    requires d > 0 && (c - 1) * d <= n < c * d
    ensures q * d <= n <==> q < c
  {
    if q < c {
      Scaled(q, c - 1, d);
    } else {
      Scaled(c, q, d);
    }
  }

  lemma Scaled(x: int, y: int, d: nat)
    requires x <= y
    ensures x * d <= y * d
  {
  }

  // Constant-product quotes -------------------------------------------------

  /** With a fee of at most 100% none of the saturations, wrap-arounds or clamps can fire:
      the quote is the exact floor of the rational formula. */
  lemma OutIsExact(amountIn: U64, reserveIn: U64, reserveOut: U64, feeNumerator: U64, feeDenominator: U64)
    requires amountIn > 0 && reserveIn > 0 && reserveOut > 0
    requires feeNumerator <= FeeDen(feeDenominator)
    ensures var d := FeeDen(feeDenominator);
            var a := AfterFee(amountIn, feeNumerator, feeDenominator);
            && a == FloorDiv(amountIn * (d - feeNumerator), d)
            && a <= amountIn
            && ConstantProductOut(amountIn, reserveIn, reserveOut, feeNumerator, feeDenominator)
               == FloorDiv(a * reserveOut, reserveIn + a)
               < reserveOut
  {
    AfterFeeIsExact(amountIn, feeNumerator, feeDenominator);
    var a := AfterFee(amountIn, feeNumerator, feeDenominator);
    U64Product(a, reserveOut);
    QuoteIsBelowReserve(a, reserveIn, reserveOut);
  }

  lemma AfterFeeIsExact(amountIn: U64, feeNumerator: U64, feeDenominator: U64)
    requires feeNumerator <= FeeDen(feeDenominator)
    ensures var d := FeeDen(feeDenominator); var a := AfterFee(amountIn, feeNumerator, feeDenominator);
            a == FloorDiv(amountIn * (d - feeNumerator), d) && a <= amountIn
  {
    var d := FeeDen(feeDenominator);
    U64Product(amountIn, d - feeNumerator);
    ShareIsSmaller(amountIn, d - feeNumerator, d);
  }

  lemma ShareIsSmaller(n: nat, k: nat, d: nat)
    requires 0 < d && k <= d
    ensures FloorDiv(n * k, d) <= n
  {
    MulMono(n, n, k, d);
    Distribute(n, 1, d);
    FloorAdjoint(n * k, d, n + 1);
  }

  lemma QuoteIsBelowReserve(a: nat, x: nat, y: nat)
    requires x > 0 && y > 0
    ensures FloorDiv(a * y, x + a) < y
  {
    Positive(x, y);
    assert y * (x + a) == a * y + x * y;
    FloorAdjoint(a * y, x + a, y);
  }

  /** The same in the caller's own terms: a positive fee denominator counts as it is, zero means basis points. */
  lemma OutInCallersTerms(amountIn: U64, reserveIn: U64, reserveOut: U64, feeNumerator: U64, feeDenominator: U64)
    requires amountIn > 0 && reserveIn > 0 && reserveOut > 0
    ensures 0 < feeDenominator && feeNumerator <= feeDenominator ==>
              var a := FloorDiv(amountIn * (feeDenominator - feeNumerator), feeDenominator);
              ConstantProductOut(amountIn, reserveIn, reserveOut, feeNumerator, feeDenominator)
              == FloorDiv(a * reserveOut, reserveIn + a)
    ensures feeDenominator == 0 && feeNumerator <= 10_000 ==>
              var a := FloorDiv(amountIn * (10_000 - feeNumerator), 10_000);
              ConstantProductOut(amountIn, reserveIn, reserveOut, feeNumerator, feeDenominator)
              == FloorDiv(a * reserveOut, reserveIn + a)
  {
    if feeNumerator <= FeeDen(feeDenominator) {
      OutIsExact(amountIn, reserveIn, reserveOut, feeNumerator, feeDenominator);
    }
  }

  /** What cannot be quoted: nothing comes out for no input or an empty reserve; no input in u64 buys nothing, a whole
      reserve, from an empty one, or through a fee of 100%. */
  lemma Unquotable(amount: U64, reserveIn: U64, reserveOut: U64, feeNumerator: U64, feeDenominator: U64)
    ensures amount == 0 || reserveIn == 0 || reserveOut == 0 ==>
              ConstantProductOut(amount, reserveIn, reserveOut, feeNumerator, feeDenominator) == 0
    ensures amount == 0 || reserveIn == 0 || amount >= reserveOut || feeNumerator == FeeDen(feeDenominator) ==>
              ConstantProductIn(amount, reserveIn, reserveOut, feeNumerator, feeDenominator) == U64_MAX
  {
  }

  /** An input quote that does not wrap and is beyond u64 is the u64 maximum. */
  lemma InSaturates(amountOut: U64, reserveIn: U64, reserveOut: U64, feeNumerator: U64, feeDenominator: U64)
    requires 0 < amountOut < reserveOut && reserveIn > 0 && feeNumerator < FeeDen(feeDenominator)
    requires var d := FeeDen(feeDenominator); var n := Product(Product(reserveIn, amountOut), d);
             n < U128_MAX && n >= U64_MAX * Product(reserveOut - amountOut, d - feeNumerator)
    ensures ConstantProductIn(amountOut, reserveIn, reserveOut, feeNumerator, feeDenominator) == U64_MAX
  {
    var d := FeeDen(feeDenominator);
    var n, den := Product(Product(reserveIn, amountOut), d), Product(reserveOut - amountOut, d - feeNumerator);
    U64Product(reserveIn, amountOut);
    U64Product(reserveOut - amountOut, d - feeNumerator);
    WrapSmall(d - feeNumerator);
    WrapSmall(n);
    WrapSmall(den);
    FloorAdjoint(n, den, U64_MAX);
    ShareIsSmaller(n, 1, den);
    WrapSmall(FloorDiv(n, den) + 1);
  }

  /** Independent characterization: the quote is the greatest output that does not lower the
      product of the reserves once the after-fee input has been added. */
  lemma OutIsGreatestSafe(amountIn: U64, reserveIn: U64, reserveOut: U64, feeNumerator: U64, feeDenominator: U64,
                          o: nat)
    requires amountIn > 0 && reserveIn > 0 && reserveOut > 0
    requires feeNumerator <= FeeDen(feeDenominator)
    ensures (reserveIn + AfterFee(amountIn, feeNumerator, feeDenominator)) * (reserveOut - o) >= reserveIn * reserveOut
            <==> o <= ConstantProductOut(amountIn, reserveIn, reserveOut, feeNumerator, feeDenominator)
  {
    OutIsExact(amountIn, reserveIn, reserveOut, feeNumerator, feeDenominator);
    GreatestSafe(AfterFee(amountIn, feeNumerator, feeDenominator), reserveIn, reserveOut, o);
  }

  lemma GreatestSafe(a: nat, x: nat, y: nat, o: nat)
    requires x > 0
    ensures (x + a) * (y - o) >= x * y <==> o <= FloorDiv(a * y, x + a)
  {
    FloorAdjoint(a * y, x + a, o);
    assert (x + a) * (y - o) == x * y + a * y - o * (x + a);
  }

  /** One swap keeps the product of the full reserves and cannot drain the output side. */
  lemma SwapKeepsProduct(amountIn: U64, reserveIn: U64, reserveOut: U64, feeNumerator: U64, feeDenominator: U64)
    requires reserveIn > 0 && reserveOut > 0
    requires feeNumerator <= FeeDen(feeDenominator)
    ensures var out := ConstantProductOut(amountIn, reserveIn, reserveOut, feeNumerator, feeDenominator);
            out < reserveOut && (reserveIn + amountIn) * (reserveOut - out) >= reserveIn * reserveOut
  {
    if amountIn > 0 {
      var out := ConstantProductOut(amountIn, reserveIn, reserveOut, feeNumerator, feeDenominator);
      OutIsExact(amountIn, reserveIn, reserveOut, feeNumerator, feeDenominator);
      OutIsGreatestSafe(amountIn, reserveIn, reserveOut, feeNumerator, feeDenominator, out);
      var a := AfterFee(amountIn, feeNumerator, feeDenominator);
      MulMono(reserveIn + a, reserveIn + amountIn, reserveOut - out, reserveOut - out);
    }
  }

  datatype Pool = Pool(x: U64, y: U64)
  datatype Swap = Swap(xToY: bool, amountIn: U64, feeNumerator: U64, feeDenominator: U64)

  /** A swap at its quoted output, in either direction. One the reserves cannot hold is refused. */
  function DoSwap(p: Pool, s: Swap): (r: Pool) {
    var (i, o) := if s.xToY then (p.x, p.y) else (p.y, p.x);
    var out := ConstantProductOut(s.amountIn, i, o, s.feeNumerator, s.feeDenominator);
    if i + s.amountIn > U64_MAX || out > o then p
    else if s.xToY then Pool(p.x + s.amountIn, p.y - out)
    else Pool(p.x - out, p.y + s.amountIn)
  }

  function RunSwaps(p: Pool, swaps: seq<Swap>): (r: Pool)
    decreases |swaps|
  {
    if swaps == [] then p else RunSwaps(DoSwap(p, swaps[0]), swaps[1..])
  }

  /** A swap the input reserve can hold takes place, at its quote. */
  lemma SwapTakesPlace(p: Pool, s: Swap)
    requires p.x > 0 && p.y > 0 && s.feeNumerator <= FeeDen(s.feeDenominator)
    ensures s.xToY && p.x + s.amountIn <= U64_MAX ==>
              var r := DoSwap(p, s);
              && r.x == p.x + s.amountIn
              && r.y + ConstantProductOut(s.amountIn, p.x, p.y, s.feeNumerator, s.feeDenominator) == p.y
    ensures !s.xToY && p.y + s.amountIn <= U64_MAX ==>
              var r := DoSwap(p, s);
              && r.y == p.y + s.amountIn
              && r.x + ConstantProductOut(s.amountIn, p.y, p.x, s.feeNumerator, s.feeDenominator) == p.x
  {
    if s.amountIn > 0 {
      OutIsExact(s.amountIn, p.x, p.y, s.feeNumerator, s.feeDenominator);
      OutIsExact(s.amountIn, p.y, p.x, s.feeNumerator, s.feeDenominator);
    }
  }

  lemma DoSwapKeepsProduct(p: Pool, s: Swap)
    requires p.x > 0 && p.y > 0 && s.feeNumerator <= FeeDen(s.feeDenominator)
    ensures var r := DoSwap(p, s); r.x > 0 && r.y > 0 && r.x * r.y >= p.x * p.y
  {
    if s.xToY {
      SwapKeepsProduct(s.amountIn, p.x, p.y, s.feeNumerator, s.feeDenominator);
    } else {
      SwapKeepsProduct(s.amountIn, p.y, p.x, s.feeNumerator, s.feeDenominator);
      var out := ConstantProductOut(s.amountIn, p.y, p.x, s.feeNumerator, s.feeDenominator);
      assert (p.y + s.amountIn) * (p.x - out) == (p.x - out) * (p.y + s.amountIn);
    }
  }

  /** Over every sequence of swaps with fees of at most 100%, in both directions, neither reserve is
      drained and their product never decreases. */
  lemma {:induction false} SwapsNeverLowerTheProduct(p: Pool, swaps: seq<Swap>)
    requires p.x > 0 && p.y > 0
    requires forall i :: 0 <= i < |swaps| ==> swaps[i].feeNumerator <= FeeDen(swaps[i].feeDenominator)
    ensures var r := RunSwaps(p, swaps); r.x > 0 && r.y > 0 && r.x * r.y >= p.x * p.y
    decreases |swaps|
  {
    if swaps != [] {
      DoSwapKeepsProduct(p, swaps[0]);
      SwapsNeverLowerTheProduct(DoSwap(p, swaps[0]), swaps[1..]);
    }
  }

  // The inverse quote -------------------------------------------------------

  function Product(a: nat, b: nat): (p: nat)
    ensures a > 0 && b > 0 ==> p > 0
  {
    a * b
  }

  /** The request is quotable and nothing in its computation overflows. */
  predicate InIsInRange(amountOut: U64, reserveIn: U64, reserveOut: U64, feeNumerator: U64, feeDenominator: U64) {
    var d := FeeDen(feeDenominator);
    && 0 < amountOut < reserveOut && reserveIn > 0 && feeNumerator < d
    && Product(Product(reserveIn, amountOut), d) <= U128_MAX
    && Product(Product(reserveIn, amountOut), d) < U64_MAX * Product(reserveOut - amountOut, d - feeNumerator)
  }

  lemma InIsExact(amountOut: U64, reserveIn: U64, reserveOut: U64, feeNumerator: U64, feeDenominator: U64)
    requires InIsInRange(amountOut, reserveIn, reserveOut, feeNumerator, feeDenominator)
    ensures var d := FeeDen(feeDenominator);
            0 < ConstantProductIn(amountOut, reserveIn, reserveOut, feeNumerator, feeDenominator)
            == 1 + FloorDiv(Product(Product(reserveIn, amountOut), d),
                            Product(reserveOut - amountOut, d - feeNumerator))
  {
    var d := FeeDen(feeDenominator);
    InDoesNotWrap(amountOut, reserveIn, reserveOut, feeNumerator, feeDenominator);
    RoundedUpInputIsExact(Product(Product(reserveIn, amountOut), d), Product(reserveOut - amountOut, d - feeNumerator));
  }

  lemma InDoesNotWrap(amountOut: U64, reserveIn: U64, reserveOut: U64, feeNumerator: U64, feeDenominator: U64)
    requires InIsInRange(amountOut, reserveIn, reserveOut, feeNumerator, feeDenominator)
    ensures var d := FeeDen(feeDenominator);
            ConstantProductIn(amountOut, reserveIn, reserveOut, feeNumerator, feeDenominator)
            == RoundedUpInput(Product(Product(reserveIn, amountOut), d),
                Product(reserveOut - amountOut, d - feeNumerator))
  {
    var d := FeeDen(feeDenominator);
    U64Product(reserveIn, amountOut);
    U64Product(reserveOut - amountOut, d - feeNumerator);
    WrapSmall(d - feeNumerator);
    WrapSmall(Product(Product(reserveIn, amountOut), d));
    WrapSmall(Product(reserveOut - amountOut, d - feeNumerator));
  }

  lemma RoundedUpInputIsExact(n: nat, den: nat)
    requires 0 < den && n < U64_MAX * den
    ensures RoundedUpInput(n, den) == FloorDiv(n, den) + 1
  {
    FloorAdjoint(n, den, U64_MAX);
  }

  /** Without overflow the inverse quote's after-fee input is short of the required real amount
      `reserveIn * amountOut / (reserveOut - amountOut)` by less than one unit. */
  lemma InFallsShortByLessThanOne(amountOut: U64, reserveIn: U64, reserveOut: U64, feeNumerator: U64,
                                  feeDenominator: U64)
    requires InIsInRange(amountOut, reserveIn, reserveOut, feeNumerator, feeDenominator)
    ensures var amountIn := ConstantProductIn(amountOut, reserveIn, reserveOut, feeNumerator, feeDenominator);
            (AfterFee(amountIn, feeNumerator, feeDenominator) + 1) * (reserveOut - amountOut) > reserveIn * amountOut
  {
    var d := FeeDen(feeDenominator);
    InIsExact(amountOut, reserveIn, reserveOut, feeNumerator, feeDenominator);
    var amountIn := ConstantProductIn(amountOut, reserveIn, reserveOut, feeNumerator, feeDenominator);
    OutIsExact(amountIn, reserveIn, reserveOut, feeNumerator, feeDenominator);
    ShortByLessThanOne(amountIn, d - feeNumerator, reserveOut - amountOut, reserveIn * amountOut, d);
  }

  lemma ShortByLessThanOne(i: nat, k: nat, gap: nat, need: nat, d: nat)
    requires gap > 0 && d > 0 && k > 0 && i == FloorDiv(Product(need, d), Product(gap, k)) + 1
    ensures (FloorDiv(Product(i, k), d) + 1) * gap > need
  {
  }

  /** A given input buys at least `amountOut` exactly when its after-fee part covers the required real amount. */
  lemma BuysBackIff(amountOut: U64, reserveIn: U64, reserveOut: U64, feeNumerator: U64, feeDenominator: U64,
                    amountIn: U64)
    requires 0 < amountOut < reserveOut && reserveIn > 0 && amountIn > 0 && feeNumerator <= FeeDen(feeDenominator)
    ensures ConstantProductOut(amountIn, reserveIn, reserveOut, feeNumerator, feeDenominator) >= amountOut
            <==> AfterFee(amountIn, feeNumerator, feeDenominator) * (reserveOut - amountOut) >= reserveIn * amountOut
  {
    var a := AfterFee(amountIn, feeNumerator, feeDenominator);
    OutIsGreatestSafe(amountIn, reserveIn, reserveOut, feeNumerator, feeDenominator, amountOut);
    Expand(reserveIn, a, reserveOut, amountOut);
  }

  lemma Expand(x: int, a: int, y: int, o: int)
    ensures (x + a) * (y - o) == x * y - x * o + a * (y - o)
  {
  }

  lemma ZeroFeeKeepsInput(amountIn: U64, feeDenominator: U64)
    ensures AfterFee(amountIn, 0, feeDenominator) == amountIn
  {
    var d := FeeDen(feeDenominator);
    U64Product(amountIn, d);
    FloorAdjoint(amountIn * d, d, amountIn);
    FloorAdjoint(amountIn * d, d, amountIn + 1);
    assert (amountIn + 1) * d == amountIn * d + d;
  }

  /** At zero fee the inverse quote always buys at least the request, and two units less never do. */
  lemma ZeroFeeInBuysBack(amountOut: U64, reserveIn: U64, reserveOut: U64, feeDenominator: U64)
    requires InIsInRange(amountOut, reserveIn, reserveOut, 0, feeDenominator)
    ensures var amountIn := ConstantProductIn(amountOut, reserveIn, reserveOut, 0, feeDenominator);
            && ConstantProductOut(amountIn, reserveIn, reserveOut, 0, feeDenominator) >= amountOut
            && (amountIn >= 2 ==>
                 ConstantProductOut(amountIn - 2, reserveIn, reserveOut, 0, feeDenominator) < amountOut)
  {
    InIsExact(amountOut, reserveIn, reserveOut, 0, feeDenominator);
    var amountIn := ConstantProductIn(amountOut, reserveIn, reserveOut, 0, feeDenominator);
    ZeroFeeBounds(amountIn, reserveOut - amountOut, reserveIn * amountOut, FeeDen(feeDenominator));
    ZeroFeeKeepsInput(amountIn, feeDenominator);
    BuysBackIff(amountOut, reserveIn, reserveOut, 0, feeDenominator, amountIn);
    if amountIn > 2 {
      ZeroFeeKeepsInput(amountIn - 2, feeDenominator);
      BuysBackIff(amountOut, reserveIn, reserveOut, 0, feeDenominator, amountIn - 2);
    }
  }

  lemma ZeroFeeBounds(i: nat, gap: nat, need: nat, d: nat)
    requires d > 0 && gap > 0 && i == FloorDiv(Product(need, d), Product(gap, d)) + 1
    ensures i * gap > need >= (i - 1) * gap == (i - 2) * gap + gap
  {
  }

  /** With a fee the quoted input can buy less than the request: for every fee there is a pool on which the input
      quoted for one unit of output is one unit, whose after-fee part is zero. */
  lemma FeeMissesTheRequest(gap: U64, feeNumerator: U64, feeDenominator: U64)
    requires 0 < feeNumerator < FeeDen(feeDenominator) && gap < U64_MAX
    requires FeeDen(feeDenominator) < Product(gap, FeeDen(feeDenominator) - feeNumerator)
    ensures InIsInRange(1, 1, gap + 1, feeNumerator, feeDenominator)
    ensures var amountIn := ConstantProductIn(1, 1, gap + 1, feeNumerator, feeDenominator);
            ConstantProductOut(amountIn, 1, gap + 1, feeNumerator, feeDenominator) < 1
  {
    var d := FeeDen(feeDenominator);
    var k := Product(gap, d - feeNumerator);
    assert Product(Product(1, 1), d) == d;
    MulMono(1, U64_MAX, k, k);
    InIsExact(1, 1, gap + 1, feeNumerator, feeDenominator);
    SmallQuotient(d, k);
    AfterFeeIsExact(1, feeNumerator, feeDenominator);
    SmallQuotient(d - feeNumerator, d);
    BuysBackIff(1, 1, gap + 1, feeNumerator, feeDenominator, 1);
  }

  lemma SmallQuotient(n: nat, d: nat)
    requires n < d
    ensures FloorDiv(n, d) == 0
  {
    FloorAdjoint(n, d, 1);
  }

  lemma FeeInCanMissTheRequest()
    ensures InIsInRange(1, 1, 4, 1, 2)
    ensures ConstantProductOut(ConstantProductIn(1, 1, 4, 1, 2), 1, 4, 1, 2) < 1
  {
    FeeMissesTheRequest(3, 1, 2);
  }

  /** The inverse quote buys at least the request, whatever the pool and the request in range. */
  ghost predicate AlwaysBuysBack(feeNumerator: U64, feeDenominator: U64) {
    forall amountOut: U64, reserveIn: U64, reserveOut: U64
      {:trigger InIsInRange(amountOut, reserveIn, reserveOut, feeNumerator, feeDenominator)} ::
      InIsInRange(amountOut, reserveIn, reserveOut, feeNumerator, feeDenominator) ==>
        var amountIn := ConstantProductIn(amountOut, reserveIn, reserveOut, feeNumerator, feeDenominator);
        ConstantProductOut(amountIn, reserveIn, reserveOut, feeNumerator, feeDenominator) >= amountOut
  }

  /** It does exactly when there is no fee, for every fee denominator up to two below the u64 maximum: a pool that
      shows the miss needs an output reserve two above the denominator. */
  lemma AlwaysBuysBackIff(feeNumerator: U64, feeDenominator: U64)
    requires feeNumerator < FeeDen(feeDenominator) <= U64_MAX - 2
    ensures AlwaysBuysBack(feeNumerator, feeDenominator) <==> feeNumerator == 0
  {
    var d := FeeDen(feeDenominator);
    if feeNumerator == 0 {
      forall amountOut: U64, reserveIn: U64, reserveOut: U64
          | InIsInRange(amountOut, reserveIn, reserveOut, 0, feeDenominator)
        ensures var amountIn := ConstantProductIn(amountOut, reserveIn, reserveOut, 0, feeDenominator);
                ConstantProductOut(amountIn, reserveIn, reserveOut, 0, feeDenominator) >= amountOut
      {
        ZeroFeeInBuysBack(amountOut, reserveIn, reserveOut, feeDenominator);
      }
    } else {
      MulMono(d + 1, d + 1, 1, d - feeNumerator);
      FeeMissesTheRequest(d + 1, feeNumerator, feeDenominator);
      var one: U64, reserveOut: U64 := 1, d + 2;
      assert InIsInRange(one, one, reserveOut, feeNumerator, feeDenominator);
    }
  }

  /** Topping the inverse quote up by one after-fee unit always buys at least the request. */
  lemma ToppedUpInBuysBack(amountOut: U64, reserveIn: U64, reserveOut: U64, feeNumerator: U64, feeDenominator: U64,
                           amountIn: U64)
    requires InIsInRange(amountOut, reserveIn, reserveOut, feeNumerator, feeDenominator)
    requires amountIn == ConstantProductIn(amountOut, reserveIn, reserveOut, feeNumerator, feeDenominator)
                         + CeilDiv(FeeDen(feeDenominator), FeeDen(feeDenominator) - feeNumerator)
    ensures ConstantProductOut(amountIn, reserveIn, reserveOut, feeNumerator, feeDenominator) >= amountOut
  {
    var d := FeeDen(feeDenominator);
    var quoted := ConstantProductIn(amountOut, reserveIn, reserveOut, feeNumerator, feeDenominator);
    InIsExact(amountOut, reserveIn, reserveOut, feeNumerator, feeDenominator);
    InFallsShortByLessThanOne(amountOut, reserveIn, reserveOut, feeNumerator, feeDenominator);
    OutIsExact(quoted, reserveIn, reserveOut, feeNumerator, feeDenominator);
    OutIsExact(amountIn, reserveIn, reserveOut, feeNumerator, feeDenominator);
    OneUnitMore(quoted, amountIn - quoted, d - feeNumerator, d);
    var a := AfterFee(quoted, feeNumerator, feeDenominator);
    MulMono(a + 1, AfterFee(amountIn, feeNumerator, feeDenominator), reserveOut - amountOut, reserveOut - amountOut);
    BuysBackIff(amountOut, reserveIn, reserveOut, feeNumerator, feeDenominator, amountIn);
  }

  lemma OneUnitMore(i: nat, t: nat, k: nat, d: nat)
    requires d > 0 && k > 0 && t == CeilDiv(d, k)
    ensures FloorDiv((i + t) * k, d) >= FloorDiv(i * k, d) + 1
  {
    Distribute(i, t, k);
    NextQuotient(i * k, (i + t) * k, d);
  }

  lemma Distribute(i: nat, t: nat, k: nat)
    ensures (i + t) * k == i * k + t * k
  {
  }

  lemma NextQuotient(n: nat, m: nat, d: nat)
    requires d > 0 && m >= n + d
    ensures FloorDiv(m, d) >= FloorDiv(n, d) + 1
  {
    var f := FloorDiv(n, d);
    Distribute(f, 1, d);
    FloorAdjoint(m, d, f + 1);
  }

  /** A quoted swap neither drains the output reserve nor lowers the product of the reserves. */
  predicate SwapIsSafe(amountIn: U64, reserveIn: U64, reserveOut: U64, feeNumerator: U64, feeDenominator: U64) {
    var out := ConstantProductOut(amountIn, reserveIn, reserveOut, feeNumerator, feeDenominator);
    out < reserveOut && (reserveIn + amountIn) * (reserveOut - out) >= reserveIn * reserveOut
  }

  ghost predicate AlwaysSafe(feeNumerator: U64, feeDenominator: U64) {
    forall amountIn: U64, reserveIn: U64, reserveOut: U64
      {:trigger SwapIsSafe(amountIn, reserveIn, reserveOut, feeNumerator, feeDenominator)} ::
      reserveIn > 0 && reserveOut > 0 ==> SwapIsSafe(amountIn, reserveIn, reserveOut, feeNumerator, feeDenominator)
  }

  /** Above 100% the fee subtraction wraps around: one unit of input counts as many. */
  lemma WrappedFeeIsHuge(feeNumerator: U64, feeDenominator: U64)
    requires feeNumerator > FeeDen(feeDenominator)
    ensures 4 <= AfterFee(1, feeNumerator, feeDenominator) <= U128_MAX
  {
    var d := FeeDen(feeDenominator);
    var w := Wrap(d - feeNumerator);
    assert w == U128_MAX + 1 + (d - feeNumerator);
    assert SatMul(1, w) == w;
    FloorAdjoint(w, d, 4);
    ShareIsSmaller(w, 1, d);
  }

  /** Two units of output are then quoted one or more for that one unit. */
  lemma HugeInputTakesOne(a: nat, x: nat)
    requires x == 4 <= a && x + a <= U128_MAX
    ensures FloorDiv(SatMul(a, 2), x + a) == 1
  {
    var n := SatMul(a, 2);
    assert x + a <= n < 2 * (x + a);
    FloorAdjoint(n, x + a, 1);
    FloorAdjoint(n, x + a, 2);
  }

  lemma FeeAboveOneIsUnsafe(feeNumerator: U64, feeDenominator: U64) returns (reserveIn: U64)
    requires feeNumerator > FeeDen(feeDenominator)
    ensures reserveIn > 0 && !SwapIsSafe(1, reserveIn, 2, feeNumerator, feeDenominator)
  {
    var a := AfterFee(1, feeNumerator, feeDenominator);
    WrappedFeeIsHuge(feeNumerator, feeDenominator);
    if 4 + a <= U128_MAX {
      reserveIn := 4;
      HugeInputTakesOne(a, 4);
      WrapSmall(4 + a);
    } else {
      reserveIn := U128_MAX + 2 - a;
      assert Wrap(reserveIn + a) == 1;
      assert SatMul(a, 2) == U128_MAX;
      FloorAdjoint(U128_MAX, 1, U128_MAX);
    }
  }

  /** Swaps at the quote are safe on every pool and for every input exactly when the fee is at most 100%. */
  lemma AlwaysSafeIff(feeNumerator: U64, feeDenominator: U64)
    ensures AlwaysSafe(feeNumerator, feeDenominator) <==> feeNumerator <= FeeDen(feeDenominator)
  {
    if feeNumerator <= FeeDen(feeDenominator) {
      forall amountIn: U64, reserveIn: U64, reserveOut: U64 | reserveIn > 0 && reserveOut > 0
        ensures SwapIsSafe(amountIn, reserveIn, reserveOut, feeNumerator, feeDenominator)
      {
        SwapKeepsProduct(amountIn, reserveIn, reserveOut, feeNumerator, feeDenominator);
      }
    } else {
      var reserveIn := FeeAboveOneIsUnsafe(feeNumerator, feeDenominator);
      var one: U64, two: U64 := 1, 2;
      assert !SwapIsSafe(one, reserveIn, two, feeNumerator, feeDenominator);
    }
  }

  /** An instance: at 10001 basis points one unit of input is quoted all but one unit of the output reserve. */
  lemma FeeAboveOneDrains()
    ensures ConstantProductOut(1, 1_000_000, 100, 10_001, 10_000) == 99
    ensures !SwapIsSafe(1, 1_000_000, 100, 10_001, 10_000)
  {
    assert Wrap(10_000 - 10_001) == U128_MAX;
    var a := 34028236692093846346337460743176821;
    assert AfterFee(1, 10_001, 10_000) == a;
    assert SatMul(a, 100) == a * 100;
    assert Wrap(1_000_000 + a) == 1_000_000 + a;
    assert FloorDiv(a * 100, 1_000_000 + a) == 99;
  }

  // Pump.fun curve ----------------------------------------------------------

  /** Cost of `t` tokens: the least payment that keeps the product of the virtual reserves.
      No quote means that this payment does not fit in a u64. */
  lemma BuyCostIsLeast(t: U64, vs: U64, vt: U64, c: U64)
    requires t < vt
    ensures (vs + c) * (vt - t) >= vs * vt
            <==> PumpBuyCost(t, vs, vt).Some? && PumpBuyCost(t, vs, vt).value <= c
  {
    U64Product(vs, t);
    CeilAdjoint(vs * t, vt - t, c);
    Expand(vs, c, vt, t);
    MulMono(0, c, 0, vt);
  }

  /** The curve at its edges: nothing costs and brings nothing, the whole token reserve cannot be bought, and against
      an empty reserve a trade takes all of the other side. */
  lemma CurveEdges(n: U64, vs: U64, vt: U64)
    ensures PumpBuyCost(0, vs, vt) == PumpTokensForSol(0, vs, vt) == PumpSolForTokens(0, vs, vt) == Some(0)
    ensures n > 0 && n >= vt ==> PumpBuyCost(n, vs, vt) == None
    ensures n > 0 && vs == 0 ==> PumpTokensForSol(n, vs, vt) == Some(vt)
    ensures n > 0 && vt == 0 ==> PumpSolForTokens(n, vs, vt) == Some(vs)
  {
    U64Product(vt, n);
    U64Product(vs, n);
    if n > 0 {
      WholeQuotient(vt, n);
      WholeQuotient(vs, n);
    }
  }

  lemma WholeQuotient(q: nat, d: nat)
    requires d > 0
    ensures FloorDiv(q * d, d) == q
  {
    FloorAdjoint(q * d, d, q);
    FloorAdjoint(q * d, d, q + 1);
    Distribute(q, 1, d);
  }

  /** Tokens for `s` lamports: the greatest amount that keeps the product. Always quotable. */
  lemma TokensForSolIsGreatest(s: U64, vs: U64, vt: U64, t: nat)
    requires vs > 0
    ensures PumpTokensForSol(s, vs, vt).Some? && PumpTokensForSol(s, vs, vt).value <= vt
    ensures (vs + s) * (vt - t) >= vs * vt <==> t <= PumpTokensForSol(s, vs, vt).value
  {
    U64Product(vt, s);
    CurveQuote(s, vs, vt, t);
    CurveQuote(s, vs, vt, vt);
    assert s * vt == vt * s;
  }

  /** SOL for `t` tokens: the greatest payout that keeps the product. Always quotable. */
  lemma SolForTokensIsGreatest(t: U64, vs: U64, vt: U64, o: nat)
    requires vt > 0
    ensures PumpSolForTokens(t, vs, vt).Some? && PumpSolForTokens(t, vs, vt).value <= vs
    ensures (vs - o) * (vt + t) >= vs * vt <==> o <= PumpSolForTokens(t, vs, vt).value
  {
    U64Product(vs, t);
    CurveQuote(t, vt, vs, o);
    CurveQuote(t, vt, vs, vs);
    assert t * vs == vs * t;
    assert (vs - o) * (vt + t) == (vt + t) * (vs - o);
    assert vs * vt == vt * vs;
  }

  lemma CurveQuote(a: nat, x: nat, y: nat, o: nat)
    requires x > 0
    ensures (x + a) * (y - o) >= x * y <==> o <= (if a == 0 then 0 else FloorDiv(a * y, x + a))
    ensures FloorDiv(a * y, x + a) <= y
    ensures y > 0 ==> FloorDiv(a * y, x + a) < y
  {
    GreatestSafe(a, x, y, o);
    GreatestSafe(a, x, y, y);
    GreatestSafe(a, x, y, y + 1);
    MulMono(0, x, 0, y);
    if a == 0 {
      FloorAdjoint(0, x, 1);
    }
    if y > 0 {
      assert x * y > 0;
    }
  }

  /** The two buy quotes are adjoint: a budget covers the cost of `t` tokens exactly when
      spending that budget yields at least `t` tokens. */
  lemma BuyQuotesAreAdjoint(t: U64, s: U64, vs: U64, vt: U64)
    requires vs > 0 && t < vt
    ensures PumpTokensForSol(s, vs, vt).Some?
    ensures (PumpBuyCost(t, vs, vt).Some? && PumpBuyCost(t, vs, vt).value <= s)
            <==> t <= PumpTokensForSol(s, vs, vt).value
  {
    BuyCostIsLeast(t, vs, vt, s);
    TokensForSolIsGreatest(s, vs, vt, t);
  }

  datatype Curve = Curve(vs: U64, vt: U64, paid: nat, received: nat, bought: nat, sold: nat)
  datatype Trade = BuyTokens(tokens: U64) | SpendSol(sol: U64) | SellTokens(tokens: U64)

  /** One trade at its quote; a trade without a quote, or one the reserves cannot hold, is refused. */
  function DoTrade(c: Curve, t: Trade): (r: Curve) {
    match t
    case BuyTokens(n) =>
      var q := PumpBuyCost(n, c.vs, c.vt);
      if q.None? || n > c.vt || c.vs + q.value > U64_MAX then c
      else c.(vs := c.vs + q.value, vt := c.vt - n, paid := c.paid + q.value, bought := c.bought + n)
    case SpendSol(s) =>
      var q := PumpTokensForSol(s, c.vs, c.vt);
      if q.None? || q.value > c.vt || c.vs + s > U64_MAX then c
      else c.(vs := c.vs + s, vt := c.vt - q.value, paid := c.paid + s, bought := c.bought + q.value)
    case SellTokens(n) =>
      var q := PumpSolForTokens(n, c.vs, c.vt);
      if q.None? || q.value > c.vs || c.vt + n > U64_MAX then c
      else c.(vs := c.vs - q.value, vt := c.vt + n, received := c.received + q.value, sold := c.sold + n)
  }

  function RunTrades(c: Curve, ts: seq<Trade>): (r: Curve)
    decreases |ts|
  {
    if ts == [] then c else RunTrades(DoTrade(c, ts[0]), ts[1..])
  }

  /** A trade with a quote the reserves can hold takes place at it, and both sides of it are counted. */
  lemma TradeTakesPlace(c: Curve, t: Trade)
    requires c.vs > 0 && c.vt > 0
    ensures var r := DoTrade(c, t);
            match t
            case BuyTokens(n) =>
              var q := PumpBuyCost(n, c.vs, c.vt);
              q.Some? && c.vs + q.value <= U64_MAX ==>
                && r.vs == c.vs + q.value && r.vt == c.vt - n
                && r.paid == c.paid + q.value && r.bought == c.bought + n
                && r.received == c.received && r.sold == c.sold
            case SpendSol(s) =>
              var q := PumpTokensForSol(s, c.vs, c.vt);
              c.vs + s <= U64_MAX ==>
                && q.Some? && r.vs == c.vs + s && r.vt == c.vt - q.value
                && r.paid == c.paid + s && r.bought == c.bought + q.value
                && r.received == c.received && r.sold == c.sold
            case SellTokens(n) =>
              var q := PumpSolForTokens(n, c.vs, c.vt);
              c.vt + n <= U64_MAX ==>
                && q.Some? && r.vs == c.vs - q.value && r.vt == c.vt + n
                && r.received == c.received + q.value && r.sold == c.sold + n
                && r.paid == c.paid && r.bought == c.bought
  {
    match t
    case BuyTokens(n) =>
    case SpendSol(s) => QuotesFit(s, c.vs, c.vt);
    case SellTokens(n) => QuotesFit(n, c.vs, c.vt);
  }

  lemma QuotesFit(n: U64, vs: U64, vt: U64)
    requires vs > 0 && vt > 0
    ensures var q := PumpTokensForSol(n, vs, vt); q.Some? && q.value < vt
    ensures var q := PumpSolForTokens(n, vs, vt); q.Some? && q.value < vs
  {
    SpendKeepsProduct(n, vs, vt);
    SellKeepsProduct(n, vs, vt);
  }

  lemma BuyKeepsProduct(n: U64, vs: U64, vt: U64)
    requires vs > 0 && vt > 0
    ensures var q := PumpBuyCost(n, vs, vt); q.Some? ==> n < vt && (vs + q.value) * (vt - n) >= vs * vt
  {
  }

  lemma SpendKeepsProduct(s: U64, vs: U64, vt: U64)
    requires vs > 0 && vt > 0
    ensures var q := PumpTokensForSol(s, vs, vt); q.Some? && q.value < vt && (vs + s) * (vt - q.value) >= vs * vt
  {
    TokensForSolIsGreatest(s, vs, vt, vt);
    TokensForSolIsGreatest(s, vs, vt, PumpTokensForSol(s, vs, vt).value);
    Positive(vs, vt);
  }

  lemma SellKeepsProduct(n: U64, vs: U64, vt: U64)
    requires vs > 0 && vt > 0
    ensures var q := PumpSolForTokens(n, vs, vt); q.Some? && q.value < vs && (vs - q.value) * (vt + n) >= vs * vt
  {
    SolForTokensIsGreatest(n, vs, vt, vs);
    SolForTokensIsGreatest(n, vs, vt, PumpSolForTokens(n, vs, vt).value);
    Positive(vs, vt);
  }

  lemma TradeKeepsProduct(c: Curve, t: Trade)
    requires c.vs > 0 && c.vt > 0
    ensures var r := DoTrade(c, t); r.vs > 0 && r.vt > 0 && r.vs * r.vt >= c.vs * c.vt
  {
    match t
    case BuyTokens(n) => BuyKeepsProduct(n, c.vs, c.vt);
    case SpendSol(s) => SpendKeepsProduct(s, c.vs, c.vt);
    case SellTokens(n) => SellKeepsProduct(n, c.vs, c.vt);
  }

  /** Over every sequence of quoted trades neither virtual reserve is drained, their product never
      decreases, and the reserves move by exactly the cash and tokens exchanged. */
  lemma {:induction false} TradesNeverLowerTheProduct(c: Curve, ts: seq<Trade>)
    requires c.vs > 0 && c.vt > 0
    ensures var r := RunTrades(c, ts);
            && r.vs > 0 && r.vt > 0 && r.vs * r.vt >= c.vs * c.vt
            && r.vs - c.vs == (r.paid - c.paid) - (r.received - c.received)
            && c.vt - r.vt == (r.bought - c.bought) - (r.sold - c.sold)
    decreases |ts|
  {
    if ts != [] {
      TradeKeepsProduct(c, ts[0]);
      TradesNeverLowerTheProduct(DoTrade(c, ts[0]), ts[1..]);
    }
  }

  lemma ReserveDidNotShrink(x: int, y: int, x': int, y': int)
    requires 0 < y' <= y && 0 < x' && x' * y' >= x * y
    ensures x <= x'
  {
  }

  /** No sequence of trades extracts SOL from the curve without giving up tokens: whoever ends with
      at least the tokens they started with has been paid back no more than they paid. */
  lemma NoFreeSol(vs: U64, vt: U64, ts: seq<Trade>)
    requires vs > 0 && vt > 0
    ensures var r := RunTrades(Curve(vs, vt, 0, 0, 0, 0), ts);
            r.sold <= r.bought ==> r.received <= r.paid
  {
    var r := RunTrades(Curve(vs, vt, 0, 0, 0, 0), ts);
    TradesNeverLowerTheProduct(Curve(vs, vt, 0, 0, 0, 0), ts);
    if r.sold <= r.bought {
      ReserveDidNotShrink(vs, vt, r.vs, r.vt);
    }
  }
}
