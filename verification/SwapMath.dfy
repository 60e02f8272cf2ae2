/**
 The exact-in swap step of a Uniswap v3 pool (Uniswap v3 Core, section 6.2.3).

 The price curve itself (tick to square-root price, amount deltas, next price) belongs to an
 external library and is a parameter: a record of total functions constrained by `Lawful`.
 */
module SwapMath {
  import opened Wrappers

  const MIN_TICK: int := -887272
  const MAX_TICK: int := 887272
  const FEE_SCALE: nat := 1_000_000
  const TWO128: nat := 0x1_00000000_00000000_00000000_00000000
  const TWO255: nat := 0x80000000_00000000_00000000_00000000_00000000_00000000_00000000_00000000
  const TWO256: nat := 0x1_00000000_00000000_00000000_00000000_00000000_00000000_00000000_00000000
  // A ceiling no amount of a single step on the tick range can reach.
  const AMOUNT_CEILING: nat := 0x100_00000000_00000000_00000000_00000000_00000000_00000000

  /** The operations of the external price library. `down` is the direction the library infers. */
  datatype PriceMath = PriceMath(
    ratioAt: int -> nat,
    tickAt: nat -> Result<int>,
    amountIn: (bool, nat, nat, nat) -> Result<nat>,   // down, current, target, liquidity
    amountOut: (bool, nat, nat, nat) -> Result<nat>,  // down, current, target, liquidity
    nextPrice: (bool, nat, nat, nat) -> Result<nat>)  // down, current, liquidity, net input

  predicate InTickRange(tick: int) {
    MIN_TICK <= tick <= MAX_TICK
  }

  /** The square-root price is strictly increasing in the tick. */
  ghost predicate RatioIncreasing(m: PriceMath) {
    forall s, t :: InTickRange(s) && InTickRange(t) && s < t ==> m.ratioAt(s) < m.ratioAt(t)
  }

  /** Moving the price with liquidity costs at least one unit. */
  ghost predicate MovingCosts(m: PriceMath) {
    forall down, c: nat, t: nat, L: nat :: c != t && 1 <= L && m.amountIn(down, c, t, L).Ok? ==>
      1 <= m.amountIn(down, c, t, L).value
  }

  /** Inside the tick range no single amount reaches the ceiling. */
  ghost predicate AmountsBounded(m: PriceMath) {
    forall down, c: nat, t: nat, L: nat ::
      && L < TWO128
      && m.ratioAt(MIN_TICK) <= c <= m.ratioAt(MAX_TICK) && m.ratioAt(MIN_TICK) <= t <= m.ratioAt(MAX_TICK) ==>
        && (m.amountIn(down, c, t, L).Ok? ==> m.amountIn(down, c, t, L).value < AMOUNT_CEILING)
        && (m.amountOut(down, c, t, L).Ok? ==> m.amountOut(down, c, t, L).value < AMOUNT_CEILING)
  }

  /** An input too small for the whole way leaves the price short of the target. */
  ghost predicate StopsShort(m: PriceMath) {
    forall down, c: nat, t: nat, L: nat, net: nat ::
      && down == (c >= t)
      && m.amountIn(down, c, t, L).Ok? && net < m.amountIn(down, c, t, L).value
      && m.nextPrice(down, c, L, net).Ok?
      ==> m.nextPrice(down, c, L, net).value != t
  }

  ghost predicate Lawful(m: PriceMath) {
    RatioIncreasing(m) && MovingCosts(m) && AmountsBounded(m) && StopsShort(m)
  }

  /** Too little input moves the price towards the target, not past it, and its way there is paid for. */
  ghost predicate StaysBetween(m: PriceMath) {
    forall down, c: nat, t: nat, L: nat, net: nat {:trigger m.nextPrice(down, c, L, net), m.amountIn(down, c, t, L)} ::
      && down == (c >= t) && L >= 1
      && m.amountIn(down, c, t, L).Ok? && net < m.amountIn(down, c, t, L).value
      && m.nextPrice(down, c, L, net).Ok?
      ==> var v := m.nextPrice(down, c, L, net).value;
          && (if down then t < v <= c else c <= v < t)
          && (m.amountIn(down, c, v, L).Ok? ==> m.amountIn(down, c, v, L).value <= net)
  }

  /** The tick of a price is the last one whose price it has reached. */
  ghost predicate LocatesTicks(m: PriceMath) {
    forall p: nat :: m.ratioAt(MIN_TICK) <= p < m.ratioAt(MAX_TICK) && m.tickAt(p).Ok? ==>
      var t := m.tickAt(p).value;
      MIN_TICK <= t < MAX_TICK && m.ratioAt(t) <= p < m.ratioAt(t + 1)
  }

  /** What the walks need beyond `Lawful` to keep tick, price and liquidity together. */
  ghost predicate Placing(m: PriceMath) {
    StaysBetween(m) && LocatesTicks(m)
  }

  datatype StepAmounts = StepAmounts(next: nat, amountIn: nat, amountOut: nat, fee: nat)

  function Min(a: nat, b: nat): nat {
    if a < b then a else b
  }

  function CeilDiv(a: nat, b: nat): nat
    requires b >= 1
  {
    (a + b - 1) / b
  }

  /** The rounded-up quotient is at most k exactly when k copies of the divisor cover a. */
  lemma CeilAtMost(a: nat, b: nat, k: nat)
    requires b >= 1
    ensures CeilDiv(a, b) <= k <==> b * k >= a
  {
    assert b * (k + 1) == b * k + b;
    FloorAtLeast(a + b - 1, b, k + 1);
  }

  lemma DivFacts(a: nat, b: nat)
    requires b >= 1
    ensures b * (a / b) <= a < b * (a / b) + b
  {
  }

  lemma MulMonotone(c: nat, a: int, b: int)
    requires a <= b
    ensures c * a <= c * b
  {
  }

  /** floor(a / b) >= k exactly when a >= b * k. */
  lemma FloorAtLeast(a: nat, b: nat, k: nat)
    requires b >= 1
    ensures a / b >= k <==> a >= b * k
  {
    DivFacts(a, b);
    if a / b >= k {
      MulMonotone(b, k, a / b);
    } else {
      MulMonotone(b, a / b + 1, k);
      assert b * (a / b + 1) == b * (a / b) + b;
    }
  }

  lemma FloorAtMost(a: nat, b: nat, k: nat)
    requires b >= 1 && a <= b * k
    ensures a / b <= k
  {
    assert b * (k + 1) == b * k + b;
    FloorAtLeast(a, b, k + 1);
  }

  lemma Cancel(r: nat, a: int, b: int)
    requires r >= 1 && r * a <= r * b
    ensures a <= b
  {
    assert r * (b + 1) == r * b + r;
    if a > b {
      MulMonotone(r, b + 1, a);
    }
  }

  /** 256-bit wrap-around. */
  function Wrapped(n: int): (r: nat)
    ensures r < TWO256
    decreases if n < 0 then TWO256 - n else n
  {
    if n < 0 then Wrapped(n + TWO256)
    else if n >= TWO256 then Wrapped(n - TWO256)
    else n
  }

  /** Which is the remainder modulo 2^256. */
  lemma {:induction false} WrappedIsRemainder(n: int)
    ensures Wrapped(n) == n % TWO256
    decreases if n < 0 then TWO256 - n else n
  {
    if n < 0 {
      WrappedIsRemainder(n + TWO256);
      OneTurn(n);
    } else if n >= TWO256 {
      WrappedIsRemainder(n - TWO256);
      OneTurn(n - TWO256);
    }
  }

  lemma OneTurn(n: int)
    ensures (n + TWO256) % TWO256 == n % TWO256
  {
    ModShift(n % TWO256, n / TWO256);
    ModShift(n % TWO256, n / TWO256 + 1);
  }

  lemma ModShift(r: nat, q: int)
    requires r < TWO256
    ensures (r + q * TWO256) % TWO256 == r
  {
  }

  /** The fee a price-limited step adds to its input; a full fee divides by zero. */
  function FeeOn(amountIn: nat, fee: nat): Result<nat>
    requires fee <= FEE_SCALE
  {
    if fee == FEE_SCALE then Err(FeeDivision)
    else
      var f := CeilDiv(amountIn * fee, FEE_SCALE - fee);
      if f >= TWO256 then Err(FeeDivision) else Ok(f)
  }

  /** The constants of a step that reaches its target price. */
  function FullStep(m: PriceMath, current: nat, target: nat, liquidity: nat, fee: nat): Result<StepAmounts>
    requires fee <= FEE_SCALE
  {
    var amountIn :- m.amountIn(current >= target, current, target, liquidity);
    var amountOut :- m.amountOut(current >= target, current, target, liquidity);
    var feeAmount :- FeeOn(amountIn, fee);
    Ok(StepAmounts(target, amountIn, amountOut, feeAmount))
  }

  /** `compute_swap_step` for exact input. */
  function ComputeSwapStep(m: PriceMath, current: nat, target: nat, liquidity: nat, remaining: nat,
                           fee: nat): Result<StepAmounts>
    requires fee <= FEE_SCALE
  {
    var down := current >= target;
    var net := remaining * (FEE_SCALE - fee) / FEE_SCALE;
    var whole :- m.amountIn(down, current, target, liquidity);
    if net >= whole then
      FullStep(m, current, target, liquidity, fee)
    else
      var next :- m.nextPrice(down, current, liquidity, net);
      if next == target then
        FullStep(m, current, target, liquidity, fee)
      else
        var amountIn :- m.amountIn(down, current, next, liquidity);
        var amountOut :- m.amountOut(down, current, next, liquidity);
        Ok(StepAmounts(next, amountIn, amountOut, Wrapped(remaining - amountIn)))
  }

  /** The floor test of the step and the integer test of the jump table agree. */
  lemma PriceLimitedTest(remaining: nat, amountIn: nat, fee: nat)
    requires fee <= FEE_SCALE
    ensures remaining * (FEE_SCALE - fee) / FEE_SCALE >= amountIn <==>
            remaining * (FEE_SCALE - fee) >= amountIn * FEE_SCALE
  {
    FloorAtLeast(remaining * (FEE_SCALE - fee), FEE_SCALE, amountIn);
  }

  /** A price-limited step never spends more than what remains: input plus its fee fits. */
  lemma NeverOverspends(remaining: nat, amountIn: nat, fee: nat)
    requires fee < FEE_SCALE
    ensures remaining * (FEE_SCALE - fee) / FEE_SCALE >= amountIn <==>
            remaining >= amountIn + CeilDiv(amountIn * fee, FEE_SCALE - fee)
  {
    PriceLimitedTest(remaining, amountIn, fee);
    var d := FEE_SCALE - fee;
    assert amountIn * FEE_SCALE == d * amountIn + amountIn * fee;
    if remaining >= amountIn {
      CeilAtMost(amountIn * fee, d, remaining - amountIn);
      assert d * (remaining - amountIn) == d * remaining - d * amountIn;
    } else {
      MulMonotone(d, remaining + 1, amountIn);
      assert d * (remaining + 1) == d * remaining + d;
    }
  }

  /** Either the step reaches its target and is affordable, or its fee takes everything left over. */
  lemma StepAffordable(m: PriceMath, current: nat, target: nat, liquidity: nat, remaining: nat, fee: nat)
    requires StopsShort(m) && fee <= FEE_SCALE
    requires ComputeSwapStep(m, current, target, liquidity, remaining, fee).Ok?
    ensures
      var a := ComputeSwapStep(m, current, target, liquidity, remaining, fee).value;
      || (a.next == target && a.amountIn + a.fee <= remaining)
      || (a.next != target && a.fee == Wrapped(remaining - a.amountIn))
  {
    hide Wrapped;
    var down := current >= target;
    var whole := m.amountIn(down, current, target, liquidity).value;
    var net := remaining * (FEE_SCALE - fee) / FEE_SCALE;
    if net >= whole {
      NeverOverspends(remaining, whole, fee);
    } else {
      assert m.nextPrice(down, current, liquidity, net).value != target;
    }
  }

  /** Too little input for the whole way leaves a price between, whose way is paid for. */
  lemma NetStaysBetween(m: PriceMath, c: nat, t: nat, L: nat, net: nat)
    requires StaysBetween(m) && L >= 1
    requires m.amountIn(c >= t, c, t, L).Ok? && net < m.amountIn(c >= t, c, t, L).value
    requires m.nextPrice(c >= t, c, L, net).Ok?
    ensures
      var v := m.nextPrice(c >= t, c, L, net).value;
      && (if c >= t then t < v <= c else c <= v < t)
      && (m.amountIn(c >= t, c, v, L).Ok? ==> m.amountIn(c >= t, c, v, L).value <= net)
  {
  }

  /** A step moves the price between where it was and where it aims. */
  lemma ComputedBetween(m: PriceMath, current: nat, target: nat, liquidity: nat, remaining: nat, fee: nat)
    requires Placing(m) && liquidity >= 1 && fee <= FEE_SCALE
    requires ComputeSwapStep(m, current, target, liquidity, remaining, fee).Ok?
    ensures
      var v := ComputeSwapStep(m, current, target, liquidity, remaining, fee).value.next;
      if current >= target then target <= v <= current else current <= v <= target
  {
    hide StaysBetween, LocatesTicks, FullStep;
    FullStepNext(m, current, target, liquidity, fee);
    var net := remaining * (FEE_SCALE - fee) / FEE_SCALE;
    if net < m.amountIn(current >= target, current, target, liquidity).value {
      NetStaysBetween(m, current, target, liquidity, net);
    }
  }

  lemma FullStepNext(m: PriceMath, current: nat, target: nat, liquidity: nat, fee: nat)
    requires fee <= FEE_SCALE
    ensures
      var a := FullStep(m, current, target, liquidity, fee);
      a.Ok? ==> a.value.next == target
  {
  }

  /** The fee of a whole step is the least one that leaves the input after deducting it at its rate. */
  lemma FeeIsLeast(amountIn: nat, fee: nat, g: nat)
    requires fee <= FEE_SCALE && FeeOn(amountIn, fee).Ok?
    ensures (amountIn + g) * (FEE_SCALE - fee) / FEE_SCALE >= amountIn <==> g >= FeeOn(amountIn, fee).value
  {
    NeverOverspends(amountIn + g, amountIn, fee);
  }

  /** What a step of amounts a does from `current`, in one account for both of its branches. */
  ghost predicate Accounted(m: PriceMath, current: nat, target: nat, liquidity: nat, remaining: nat, fee: nat,
                            a: StepAmounts)
    requires fee <= FEE_SCALE
  {
    var down := current >= target;
    var net := remaining * (FEE_SCALE - fee) / FEE_SCALE;
    // both amounts are those of the interval the price moved over
    && m.amountIn(down, current, a.next, liquidity) == Ok(a.amountIn)
    && m.amountOut(down, current, a.next, liquidity) == Ok(a.amountOut)
    // the target is reached exactly if the input after the fee covers it
    && m.amountIn(down, current, target, liquidity).Ok?
    && (a.next == target <==> net >= m.amountIn(down, current, target, liquidity).value)
    // otherwise the price is the one of that input, and everything is spent
    && (a.next != target ==> m.nextPrice(down, current, liquidity, net) == Ok(a.next))
    && (a.next != target ==> a.amountIn + a.fee == remaining)
    && a.amountIn + a.fee <= remaining
    // what is kept is never below the fee's rate
    && a.amountIn * FEE_SCALE <= (a.amountIn + a.fee) * (FEE_SCALE - fee)
  }

  lemma StepAccount(m: PriceMath, current: nat, target: nat, liquidity: nat, remaining: nat, fee: nat)
    requires Placing(m) && StopsShort(m) && liquidity >= 1 && fee <= FEE_SCALE && remaining < TWO256
    requires ComputeSwapStep(m, current, target, liquidity, remaining, fee).Ok?
    ensures
      Accounted(m, current, target, liquidity, remaining, fee,
                ComputeSwapStep(m, current, target, liquidity, remaining, fee).value)
  {
    hide Accounted, Placing, StopsShort;
    var net := remaining * (FEE_SCALE - fee) / FEE_SCALE;
    if net >= m.amountIn(current >= target, current, target, liquidity).value {
      WholeAccount(m, current, target, liquidity, remaining, fee);
    } else {
      PartAccount(m, current, target, liquidity, remaining, fee);
    }
  }

  lemma WholeAccount(m: PriceMath, current: nat, target: nat, liquidity: nat, remaining: nat, fee: nat)
    requires fee <= FEE_SCALE && FullStep(m, current, target, liquidity, fee).Ok?
    requires remaining * (FEE_SCALE - fee) / FEE_SCALE
             >= m.amountIn(current >= target, current, target, liquidity).value
    ensures
      Accounted(m, current, target, liquidity, remaining, fee, FullStep(m, current, target, liquidity, fee).value)
  {
    var whole := m.amountIn(current >= target, current, target, liquidity).value;
    var f := FeeOn(whole, fee).value;
    NeverOverspends(remaining, whole, fee);
    FeeIsLeast(whole, fee, f);
    PriceLimitedTest(whole + f, whole, fee);
  }

  lemma PartAccount(m: PriceMath, current: nat, target: nat, liquidity: nat, remaining: nat, fee: nat)
    requires Placing(m) && StopsShort(m) && liquidity >= 1 && fee <= FEE_SCALE && remaining < TWO256
    requires ComputeSwapStep(m, current, target, liquidity, remaining, fee).Ok?
    requires remaining * (FEE_SCALE - fee) / FEE_SCALE < m.amountIn(current >= target, current, target, liquidity).value
    ensures
      Accounted(m, current, target, liquidity, remaining, fee,
                ComputeSwapStep(m, current, target, liquidity, remaining, fee).value)
  {
    hide Placing, StopsShort, FullStep, Wrapped;
    var net := remaining * (FEE_SCALE - fee) / FEE_SCALE;
    PartStays(m, current, target, liquidity, net);
    var a := ComputeSwapStep(m, current, target, liquidity, remaining, fee).value;
    NetRate(remaining, fee, a.amountIn);
    NoWrap(remaining - a.amountIn);
    assert a.amountIn + a.fee == remaining;
  }

  lemma PartStays(m: PriceMath, c: nat, t: nat, L: nat, net: nat)
    requires Placing(m) && L >= 1
    requires m.amountIn(c >= t, c, t, L).Ok? && net < m.amountIn(c >= t, c, t, L).value
    requires m.nextPrice(c >= t, c, L, net).Ok?
    ensures
      var v := m.nextPrice(c >= t, c, L, net).value;
      v != t && (m.amountIn(c >= t, c, v, L).Ok? ==> m.amountIn(c >= t, c, v, L).value <= net)
  {
    hide StaysBetween;
    NetStaysBetween(m, c, t, L, net);
  }

  /** An amount within the net input is within the input, at the rate of the fee. */
  lemma NetRate(remaining: nat, fee: nat, amount: nat)
    requires fee <= FEE_SCALE && amount <= remaining * (FEE_SCALE - fee) / FEE_SCALE
    ensures amount <= remaining && amount * FEE_SCALE <= remaining * (FEE_SCALE - fee)
  {
    NetAtMost(remaining, fee);
    PriceLimitedTest(remaining, amount, fee);
  }

  lemma NoWrap(n: nat)
    requires n < TWO256
    ensures Wrapped(n) == n
  {
  }

  lemma NetAtMost(remaining: nat, fee: nat)
    requires fee <= FEE_SCALE
    ensures remaining * (FEE_SCALE - fee) / FEE_SCALE <= remaining
  {
    MulMonotone(remaining, FEE_SCALE - fee, FEE_SCALE);
    FloorAtMost(remaining * (FEE_SCALE - fee), FEE_SCALE, remaining);
  }

  // ---- A full fee ----

  /** Without net input the price stays where it is, and staying moves no amounts. */
  ghost predicate StandsStill(m: PriceMath, current: nat, liquidity: nat) {
    forall down ::
      && m.nextPrice(down, current, liquidity, 0) == Ok(current)
      && m.amountIn(down, current, current, liquidity) == Ok(0)
      && m.amountOut(down, current, current, liquidity) == Ok(0)
  }

  /**
   At a full fee a step divides by zero exactly when it is at its target already. Any other step
   succeeds: the price stays, and the whole remaining amount becomes the fee.
   */
  lemma FullFeeStep(m: PriceMath, current: nat, target: nat, liquidity: nat, remaining: nat)
    requires MovingCosts(m) && liquidity >= 1 && StandsStill(m, current, liquidity)
    requires m.amountIn(current >= target, current, target, liquidity).Ok?
    ensures
      ComputeSwapStep(m, current, target, liquidity, remaining, FEE_SCALE) ==
        if current == target then Err(FeeDivision) else Ok(StepAmounts(current, 0, 0, Wrapped(remaining)))
  {
    assert remaining * (FEE_SCALE - FEE_SCALE) / FEE_SCALE == 0;
  }
}
