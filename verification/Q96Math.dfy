/**
 The fixed-point amount and price formulas of Uniswap v3 Core (section 6.2.3), with 96 fractional
 bits, as an instance of the abstract price library: they obey every law the walks rely on.
 */
module Q96Math {
  import opened Wrappers
  import opened SwapMath

  const Q32: nat := 0x1_00000000
  const Q96: nat := 0x1_00000000_00000000_00000000
  const Q160: nat := 0x1_00000000_00000000_00000000_00000000_00000000
  const Q192: nat := 0x1_00000000_00000000_00000000_00000000_00000000_00000000

  function Lo(a: nat, b: nat): nat {
    if a <= b then a else b
  }

  function Hi(a: nat, b: nat): nat {
    if a <= b then b else a
  }

  function FloorDiv(a: nat, b: nat): nat
    requires b >= 1
  {
    a / b
  }

  /** The amount of token0 between two prices, rounded up. */
  function Amount0Up(lo: nat, hi: nat, liquidity: nat): nat
    requires 1 <= lo <= hi
  {
    CeilDiv(CeilDiv(liquidity * Q96 * (hi - lo), hi), lo)
  }

  function Amount0Down(lo: nat, hi: nat, liquidity: nat): nat
    requires 1 <= lo <= hi
  {
    FloorDiv(FloorDiv(liquidity * Q96 * (hi - lo), hi), lo)
  }

  /** The amount of token1 between two prices, rounded up. */
  function Amount1Up(lo: nat, hi: nat, liquidity: nat): nat
    requires lo <= hi
  {
    CeilDiv(liquidity * (hi - lo), Q96)
  }

  function Amount1Down(lo: nat, hi: nat, liquidity: nat): nat
    requires lo <= hi
  {
    liquidity * (hi - lo) / Q96
  }

  function AmountIn(down: bool, c: nat, t: nat, liquidity: nat): Result<nat> {
    if Lo(c, t) == 0 then Err(Math(0))
    else if down then Ok(Amount0Up(Lo(c, t), Hi(c, t), liquidity))
    else Ok(Amount1Up(Lo(c, t), Hi(c, t), liquidity))
  }

  function AmountOut(down: bool, c: nat, t: nat, liquidity: nat): Result<nat> {
    if Lo(c, t) == 0 then Err(Math(0))
    else if down then Ok(Amount1Down(Lo(c, t), Hi(c, t), liquidity))
    else Ok(Amount0Down(Lo(c, t), Hi(c, t), liquidity))
  }

  /** The price after adding token0: one formula while it fits 256 bits, a coarser one beyond. */
  function NextFrom0(c: nat, liquidity: nat, net: nat): nat
    requires c >= 1 && liquidity >= 1
  {
    var l := liquidity * Q96;
    assert l >= 1;
    if l + net * c < TWO256 then NextExact(l, c, net) else NextCoarse(l, c, net)
  }

  function NextExact(l: nat, c: nat, net: nat): nat
    requires l >= 1 && c >= 1
  {
    CeilDiv(l * c, l + net * c)
  }

  function NextCoarse(l: nat, c: nat, net: nat): nat
    requires l >= 1 && c >= 1
  {
    if l / c + net == 0 then 0 else CeilDiv(l, l / c + net)
  }

  function NextFrom1(c: nat, liquidity: nat, net: nat): nat
    requires liquidity >= 1
  {
    c + net * Q96 / liquidity
  }

  function NextPrice(down: bool, c: nat, liquidity: nat, net: nat): Result<nat> {
    if c == 0 || liquidity == 0 then Err(Math(1))
    else if !down then Ok(NextFrom1(c, liquidity, net))
    else if net == 0 then Ok(c)
    else Ok(NextFrom0(c, liquidity, net))
  }

  function Library(ratioAt: int -> nat, tickAt: nat -> Result<int>): PriceMath {
    PriceMath(ratioAt, tickAt, AmountIn, AmountOut, NextPrice)
  }

  // ---- Moving costs ----

  lemma CeilPositive(a: nat, b: nat)
    requires a >= 1 && b >= 1
    ensures CeilDiv(a, b) >= 1
  {
    CeilAtMost(a, b, 0);
  }

  lemma ProductPositive(a: nat, b: nat)
    requires a >= 1 && b >= 1
    ensures a * b >= 1
  {
    MulMonotone(a, 1, b);
  }

  lemma MoveCosts(down: bool, c: nat, t: nat, liquidity: nat)
    requires c != t && 1 <= liquidity && AmountIn(down, c, t, liquidity).Ok?
    ensures 1 <= AmountIn(down, c, t, liquidity).value
  {
    hide CeilDiv;
    var lo, hi := Lo(c, t), Hi(c, t);
    if down {
      ProductPositive(liquidity * Q96, hi - lo);
      CeilPositive(liquidity * Q96 * (hi - lo), hi);
      CeilPositive(CeilDiv(liquidity * Q96 * (hi - lo), hi), lo);
    } else {
      ProductPositive(liquidity, hi - lo);
      CeilPositive(liquidity * (hi - lo), Q96);
    }
  }

  // ---- Bounds ----

  lemma Amount0Bounded(lo: nat, hi: nat, liquidity: nat)
    requires Q32 <= lo <= hi && liquidity < TWO128
    ensures Amount0Up(lo, hi, liquidity) <= Q192
  {
    hide CeilDiv;
    var l := liquidity * Q96;
    MulMonotone(l, hi - lo, hi);
    CeilAtMost(l * (hi - lo), hi, l);
    var inner := CeilDiv(l * (hi - lo), hi);
    MulMonotone(Q192, Q32, lo);
    CeilAtMost(inner, lo, Q192);
  }

  lemma DownAtMostUp(a: nat, b: nat)
    requires b >= 1
    ensures a / b <= CeilDiv(a, b)
  {
    DivFacts(a, b);
    FloorAtLeast(a + b - 1, b, a / b);
  }

  lemma Amount0DownBounded(lo: nat, hi: nat, liquidity: nat)
    requires Q32 <= lo <= hi && liquidity < TWO128
    ensures Amount0Down(lo, hi, liquidity) <= Q192
  {
    var l := liquidity * Q96;
    var v := l * (hi - lo);
    MulMonotone(l, hi - lo, hi);
    FloorAtMost(v, hi, l);
    MulMonotone(Q192, Q32, lo);
    FloorAtMost(v / hi, lo, Q192);
  }

  lemma Amount1Bounded(lo: nat, hi: nat, liquidity: nat)
    requires lo <= hi < Q160 && liquidity < TWO128
    ensures Amount1Down(lo, hi, liquidity) <= Amount1Up(lo, hi, liquidity) <= Q192
  {
    hide CeilDiv;
    MulMonotone(liquidity, hi - lo, Q160);
    CeilAtMost(liquidity * (hi - lo), Q96, Q192);
    DownAtMostUp(liquidity * (hi - lo), Q96);
  }

  // ---- Stopping short ----

  /** Too little token0 for the way from c down to t, as one inequality. */
  lemma ShortOfToken0(c: nat, t: nat, liquidity: nat, net: nat)
    requires 1 <= t <= c && net < Amount0Up(t, c, liquidity)
    ensures t * net * c < liquidity * Q96 * (c - t)
  {
    hide CeilDiv;
    var v := liquidity * Q96 * (c - t);
    CeilAtMost(CeilDiv(v, c), t, net);
    CeilAtMost(v, c, t * net);
    Commute(c, t * net);
  }

  lemma Commute(a: nat, b: nat)
    ensures a * b == b * a
  {
  }

  lemma ExactStopsShort(l: nat, c: nat, t: nat, net: nat)
    requires l >= 1 && 1 <= t <= c && t * net * c < l * (c - t)
    ensures NextExact(l, c, net) > t
  {
    hide CeilDiv;
    CeilAtMost(l * c, l + net * c, t);
    assert (l + net * c) * t == l * t + t * net * c by {
      assert (net * c) * t == t * net * c;
    }
    assert l * (c - t) == l * c - l * t;
  }

  lemma CoarseStopsShort(l: nat, c: nat, t: nat, net: nat)
    requires l >= 1 && 1 <= t <= c && net >= 1 && t * net * c < l * (c - t)
    ensures NextCoarse(l, c, net) > t
  {
    hide CeilDiv;
    DivFacts(l, c);
    CoarseCore(l, c, t, net, l / c);
    CeilAtMost(l, l / c + net, t);
  }

  lemma CoarseCore(l: nat, c: nat, t: nat, net: nat, k: nat)
    requires t <= c && c * k <= l && t * net * c < l * (c - t)
    ensures (k + net) * t < l
  {
    MulMonotone(t, c * k, l);
    CoarseProduct(k, c, t, net);
    Spread(l, c, t);
    Below(c, (k + net) * t, l);
  }

  lemma Spread(l: nat, c: nat, t: nat)
    requires t <= c
    ensures l * (c - t) == c * l - t * l
  {
  }

  lemma CoarseProduct(k: nat, c: nat, t: nat, net: nat)
    ensures c * ((k + net) * t) == t * (c * k) + t * net * c
  {
    var u, v := k * t, net * t;
    assert (k + net) * t == u + v;
    assert c * (u + v) == c * u + c * v;
    assert c * (k * t) == t * (c * k);
    assert c * (net * t) == t * net * c;
  }

  lemma Below(c: nat, a: nat, b: nat)
    requires c * a < c * b
    ensures a < b
  {
    if a >= b {
      MulMonotone(c, b, a);
    }
  }

  lemma Token1StopsShort(c: nat, t: nat, liquidity: nat, net: nat)
    requires c < t && liquidity >= 1 && net < Amount1Up(c, t, liquidity)
    ensures NextFrom1(c, liquidity, net) < t
  {
    hide CeilDiv;
    CeilAtMost(liquidity * (t - c), Q96, net);
    FloorAtLeast(net * Q96, liquidity, t - c);
  }

  lemma PriceStopsShort(c: nat, t: nat, liquidity: nat, net: nat)
    requires AmountIn(c >= t, c, t, liquidity).Ok? && net < AmountIn(c >= t, c, t, liquidity).value
    requires NextPrice(c >= t, c, liquidity, net).Ok?
    ensures NextPrice(c >= t, c, liquidity, net).value != t
  {
    if c >= t {
      ShortOfToken0(c, t, liquidity, net);
      if net == 0 {
        assert c != t;
      } else {
        var l := liquidity * Q96;
        ExactStopsShort(l, c, t, net);
        CoarseStopsShort(l, c, t, net);
      }
    } else {
      Token1StopsShort(c, t, liquidity, net);
    }
  }

  /**
   With any strictly increasing tick-to-price function whose range fits the fixed-point format,
   the formulas obey all the laws.
   */
  lemma LibraryIsLawful(ratioAt: int -> nat, tickAt: nat -> Result<int>)
    requires forall s, t :: InTickRange(s) && InTickRange(t) && s < t ==> ratioAt(s) < ratioAt(t)
    requires Q32 <= ratioAt(MIN_TICK) && ratioAt(MAX_TICK) < Q160
    ensures Lawful(Library(ratioAt, tickAt))
  {
    hide Amount0Up, Amount0Down, Amount1Up, Amount1Down, NextFrom0, NextFrom1;
    var m := Library(ratioAt, tickAt);
    LibraryMoves(ratioAt, tickAt);
    forall down, c: nat, t: nat, L: nat
      | L < TWO128 && ratioAt(MIN_TICK) <= c <= ratioAt(MAX_TICK) && ratioAt(MIN_TICK) <= t <= ratioAt(MAX_TICK)
      ensures m.amountIn(down, c, t, L).Ok? ==> m.amountIn(down, c, t, L).value < AMOUNT_CEILING
      ensures m.amountOut(down, c, t, L).Ok? ==> m.amountOut(down, c, t, L).value < AMOUNT_CEILING
    {
      Amount0Bounded(Lo(c, t), Hi(c, t), L);
      Amount0DownBounded(Lo(c, t), Hi(c, t), L);
      Amount1Bounded(Lo(c, t), Hi(c, t), L);
    }
    forall down, c: nat, t: nat, L: nat, net: nat
      | && down == (c >= t)
        && m.amountIn(down, c, t, L).Ok? && net < m.amountIn(down, c, t, L).value
        && m.nextPrice(down, c, L, net).Ok?
      ensures m.nextPrice(down, c, L, net).value != t
    {
      PriceStopsShort(c, t, L, net);
    }
  }

  // ---- Staying between ----

  lemma ExactBetween(l: nat, c: nat, net: nat)
    requires l >= 1 && c >= 1
    ensures NextExact(l, c, net) <= c && l * c <= NextExact(l, c, net) * (l + net * c)
  {
    hide CeilDiv;
    assert (l + net * c) * c == l * c + (net * c) * c;
    CeilAtMost(l * c, l + net * c, c);
    CeilAtMost(l * c, l + net * c, NextExact(l, c, net));
    Commute(l + net * c, NextExact(l, c, net));
  }

  lemma CoarseBetween(l: nat, c: nat, net: nat)
    requires l >= 1 && c >= 1 && net >= 1
    ensures NextCoarse(l, c, net) <= c && l * c <= NextCoarse(l, c, net) * (l + net * c)
  {
    hide CeilDiv;
    var k := l / c;
    DivFacts(l, c);
    CoarseAtMost(l, c, k, net);
    CeilAtMost(l, k + net, c);
    CeilAtMost(l, k + net, CeilDiv(l, k + net));
    CoarseAtLeast(l, c, k, net, CeilDiv(l, k + net));
  }

  lemma CoarseAtMost(l: nat, c: nat, k: nat, net: nat)
    requires net >= 1 && l < c * k + c
    ensures l <= (k + net) * c
  {
    MulMonotone(c, k + 1, k + net);
    assert c * (k + 1) == c * k + c;
    Commute(c, k + net);
  }

  lemma CoarseAtLeast(l: nat, c: nat, k: nat, net: nat, v: nat)
    requires c * k <= l <= (k + net) * v
    ensures l * c <= v * (l + net * c)
  {
    MulMonotone(c, l, (k + net) * v);
    MulMonotone(v, c * k, l);
    CoarseProduct(k, c, v, net);
    assert v * (l + net * c) == v * l + v * (net * c);
    assert v * net * c == v * (net * c);
    Commute(c, l);
  }

  /** Down from c to v, if v is no lower than the net input takes it, token0 for the way is covered. */
  lemma Covered0(liquidity: nat, c: nat, v: nat, net: nat)
    requires 1 <= v <= c && liquidity * Q96 * c <= v * (liquidity * Q96 + net * c)
    ensures Amount0Up(v, c, liquidity) <= net
  {
    hide CeilDiv;
    var l := liquidity * Q96;
    assert v * (l + net * c) == v * l + c * (v * net);
    Spread(l, c, v);
    Commute(l, c);
    CeilAtMost(l * (c - v), c, v * net);
    CeilAtMost(CeilDiv(l * (c - v), c), v, net);
  }

  lemma Covered1(liquidity: nat, c: nat, net: nat)
    requires liquidity >= 1
    ensures Amount1Up(c, NextFrom1(c, liquidity, net), liquidity) <= net
  {
    hide CeilDiv;
    var k := net * Q96 / liquidity;
    DivFacts(net * Q96, liquidity);
    Commute(net, Q96);
    CeilAtMost(liquidity * k, Q96, net);
  }

  lemma PriceStaysBetween(c: nat, t: nat, liquidity: nat, net: nat)
    requires liquidity >= 1
    requires AmountIn(c >= t, c, t, liquidity).Ok? && net < AmountIn(c >= t, c, t, liquidity).value
    requires NextPrice(c >= t, c, liquidity, net).Ok?
    ensures
      var v := NextPrice(c >= t, c, liquidity, net).value;
      && (if c >= t then t < v <= c else c <= v < t)
      && (AmountIn(c >= t, c, v, liquidity).Ok? ==> AmountIn(c >= t, c, v, liquidity).value <= net)
  {
    hide Amount0Up, Amount1Up, NextExact, NextCoarse, NextFrom1;
    var v := NextPrice(c >= t, c, liquidity, net).value;
    if c >= t {
      DownStaysBetween(c, t, liquidity, net);
    } else {
      Token1StopsShort(c, t, liquidity, net);
      Covered1(liquidity, c, net);
      NotBelow(c, liquidity, net);
    }
  }

  lemma NotBelow(c: nat, liquidity: nat, net: nat)
    requires liquidity >= 1
    ensures c <= NextFrom1(c, liquidity, net)
  {
  }

  lemma DownStaysBetween(c: nat, t: nat, liquidity: nat, net: nat)
    requires liquidity >= 1 && 1 <= t <= c && net < Amount0Up(t, c, liquidity)
    ensures
      var v := NextPrice(true, c, liquidity, net).value;
      t < v <= c && Amount0Up(v, c, liquidity) <= net
  {
    hide Amount0Up, NextExact, NextCoarse;
    var l := liquidity * Q96;
    ShortOfToken0(c, t, liquidity, net);
    if net == 0 {
      Below0(l, c, t);
      Covered0(liquidity, c, c, 0);
    } else {
      ExactStopsShort(l, c, t, net);
      CoarseStopsShort(l, c, t, net);
      ExactBetween(l, c, net);
      CoarseBetween(l, c, net);
      Covered0(liquidity, c, NextFrom0(c, liquidity, net), net);
    }
  }

  lemma Below0(l: nat, c: nat, t: nat)
    requires t <= c && t * 0 * c < l * (c - t)
    ensures t < c
  {
  }

  /** A tick function that locates its prices makes the formulas keep tick, price and liquidity together. */
  lemma LibraryIsPlacing(ratioAt: int -> nat, tickAt: nat -> Result<int>)
    requires LocatesTicks(Library(ratioAt, tickAt))
    ensures Placing(Library(ratioAt, tickAt))
  {
    hide LocatesTicks, NextPrice, AmountIn;
    var m := Library(ratioAt, tickAt);
    forall down, c: nat, t: nat, L: nat, net: nat {:trigger m.nextPrice(down, c, L, net), m.amountIn(down, c, t, L)}
      | && down == (c >= t) && L >= 1
        && m.amountIn(down, c, t, L).Ok? && net < m.amountIn(down, c, t, L).value
        && m.nextPrice(down, c, L, net).Ok?
      ensures
        var v := m.nextPrice(down, c, L, net).value;
        && (if down then t < v <= c else c <= v < t)
        && (m.amountIn(down, c, v, L).Ok? ==> m.amountIn(down, c, v, L).value <= net)
    {
      PriceStaysBetween(c, t, L, net);
    }
  }

  // ---- Fair prices ----

  /** Both amounts of an interval, rounded as they are, trade no better than at its geometric mean. */
  lemma IntervalIsFair(lo: nat, hi: nat, liquidity: nat)
    requires 1 <= lo <= hi
    ensures Amount1Down(lo, hi, liquidity) * Q192 <= Amount0Up(lo, hi, liquidity) * (hi * lo)
    ensures Amount0Down(lo, hi, liquidity) * (hi * lo) <= Amount1Up(lo, hi, liquidity) * Q192
  {
    hide CeilDiv;
    var d := liquidity * (hi - lo);
    var v := liquidity * Q96 * (hi - lo);
    assert v == d * Q96;
    UpCovers(v, hi, lo);
    DownWithin(v, hi, lo);
    DivFacts(d, Q96);
    CeilAtMost(d, Q96, CeilDiv(d, Q96));
    assert Amount1Down(lo, hi, liquidity) * Q192 == Q96 * (Q96 * (d / Q96));
    assert Amount1Up(lo, hi, liquidity) * Q192 == Q96 * (Q96 * CeilDiv(d, Q96));
    Commute(d, Q96);
  }

  lemma UpCovers(v: nat, hi: nat, lo: nat)
    requires hi >= 1 && lo >= 1
    ensures v <= CeilDiv(CeilDiv(v, hi), lo) * (hi * lo)
  {
    hide CeilDiv;
    var a := CeilDiv(v, hi);
    var b := CeilDiv(a, lo);
    CeilAtMost(v, hi, a);
    CeilAtMost(a, lo, b);
    MulMonotone(hi, a, lo * b);
    assert hi * (lo * b) == b * (hi * lo);
  }

  lemma DownWithin(v: nat, hi: nat, lo: nat)
    requires hi >= 1 && lo >= 1
    ensures FloorDiv(FloorDiv(v, hi), lo) * (hi * lo) <= v
  {
    var a := v / hi;
    var b := a / lo;
    DivFacts(v, hi);
    DivFacts(a, lo);
    MulMonotone(hi, lo * b, a);
    assert hi * (lo * b) == b * (hi * lo);
  }

  // ---- A full fee ----

  lemma LibraryStandsStill(ratioAt: int -> nat, tickAt: nat -> Result<int>, c: nat, liquidity: nat)
    requires c >= 1 && liquidity >= 1
    ensures StandsStill(Library(ratioAt, tickAt), c, liquidity)
  {
    hide CeilDiv, FloorDiv;
    var m := Library(ratioAt, tickAt);
    NothingOver(c);
    NothingOver(Q96);
    NothingOver(liquidity);
    forall down
      ensures m.nextPrice(down, c, liquidity, 0) == Ok(c)
      ensures m.amountIn(down, c, c, liquidity) == Ok(0) && m.amountOut(down, c, c, liquidity) == Ok(0)
    {
      NoDistance(c, liquidity);
    }
  }

  lemma NothingOver(b: nat)
    requires b >= 1
    ensures CeilDiv(0, b) == 0 && FloorDiv(0, b) == 0 && 0 / b == 0
  {
    CeilAtMost(0, b, 0);
  }

  lemma NoDistance(c: nat, liquidity: nat)
    ensures liquidity * Q96 * (c - c) == 0 && liquidity * (c - c) == 0
  {
  }

  /**
   With these formulas a step at a full fee fails exactly without liquidity, at the price zero, or at
   its own target; otherwise it succeeds and takes everything as the fee.
   */
  lemma FullFeeExactly(ratioAt: int -> nat, tickAt: nat -> Result<int>, c: nat, t: nat, liquidity: nat, remaining: nat)
    ensures
      var step := ComputeSwapStep(Library(ratioAt, tickAt), c, t, liquidity, remaining, FEE_SCALE);
      && (step.Err? <==> c == 0 || t == 0 || liquidity == 0 || c == t)
      && (step.Ok? ==> step.value == StepAmounts(c, 0, 0, Wrapped(remaining)))
  {
    hide Amount0Up, Amount0Down, Amount1Up, Amount1Down, NextFrom0, NextFrom1;
    var m := Library(ratioAt, tickAt);
    if c >= 1 && t >= 1 && liquidity >= 1 {
      LibraryStandsStill(ratioAt, tickAt, c, liquidity);
      LibraryMoves(ratioAt, tickAt);
      hide ComputeSwapStep;
      FullFeeStep(m, c, t, liquidity, remaining);
    }
  }

  lemma LibraryMoves(ratioAt: int -> nat, tickAt: nat -> Result<int>)
    ensures MovingCosts(Library(ratioAt, tickAt))
  {
    hide Amount0Up, Amount1Up;
    var m := Library(ratioAt, tickAt);
    forall down, c: nat, t: nat, L: nat | c != t && 1 <= L && m.amountIn(down, c, t, L).Ok?
      ensures 1 <= m.amountIn(down, c, t, L).value
    {
      MoveCosts(down, c, t, L);
    }
  }

  /** A step at a full fee that succeeds: half the price 1, one unit of liquidity, an input of 5. */
  lemma FullFeeSucceeds(ratioAt: int -> nat, tickAt: nat -> Result<int>)
    ensures ComputeSwapStep(Library(ratioAt, tickAt), Q96, Q96 / 2, 1, 5, FEE_SCALE) == Ok(StepAmounts(Q96, 0, 0, 5))
  {
    FullFeeExactly(ratioAt, tickAt, Q96, Q96 / 2, 1, 5);
  }
}
