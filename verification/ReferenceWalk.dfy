/**
 The plain word-by-word walk of an exact-in swap: the slow loop the jump table must reproduce.
 `Body` is one iteration, `Outcome` the whole loop.
 */
module ReferenceWalk {
  import opened Wrappers
  import opened SwapMath
  import opened TickBitmap

  /** A shared bitmap: its allocation address and the words stored there. */
  datatype Arc = Arc(ptr: nat, words: Bitmap)

  datatype Pool = Pool(arc: Arc, ticks: map<int, int>, liquidity: nat, fee: nat, tickSpacing: int, tick: int,
                       sqrtPrice: nat) {
    predicate Valid() {
      tickSpacing >= 1 && fee <= FEE_SCALE && liquidity < TWO128
    }
  }

  /**
   What stays fixed during one walk. The reference loop chains only steps with liquidity; the
   loops of the pools themselves chain steps without any, too, and the V4 loop gives up in a void:
   too many words in a row without an initialized tick, at too little liquidity.
   */
  datatype Walk = Walk(math: PriceMath, pool: Pool, zeroForOne: bool, limit: nat, needsLiquidity: bool,
                       stopsInVoid: bool) {

    ghost predicate Valid() {
      Lawful(math) && pool.Valid()
    }

    /** The limits for which the loop is sure to stop; production always passes the extreme ones. */
    predicate LimitInRange() {
      if zeroForOne then math.ratioAt(MIN_TICK) <= limit else limit <= math.ratioAt(MAX_TICK)
    }
  }

  /** `words` counts the words since the last initialized tick. */
  datatype WalkState = WalkState(sqrtPrice: nat, remaining: nat, amountOut: nat, tick: int, liquidity: nat,
                                 words: nat) {
    predicate Valid() {
      remaining < TWO255 && liquidity < TWO128
    }
  }

  /** The constants of one step, as the jump table records them. */
  datatype SpanStep = SpanStep(endTick: int, endSqrt: nat, amountIn: nat, amountOut: nat, fee: nat)

  datatype Iteration = Iteration(after: WalkState, step: SpanStep, chainable: bool, landed: bool)

  function Start(w: Walk, amountIn: nat): WalkState {
    WalkState(w.pool.sqrtPrice, amountIn, 0, w.pool.tick, w.pool.liquidity, 0)
  }

  /** The negated loop guard. */
  predicate Done(w: Walk, s: WalkState) {
    s.remaining == 0 || s.sqrtPrice == w.limit
  }

  function Clamp(tick: int): (r: int)
    ensures InTickRange(r)
  {
    if tick < MIN_TICK then MIN_TICK else if tick > MAX_TICK then MAX_TICK else tick
  }

  function Search(w: Walk, s: WalkState): NextTick
    requires w.pool.Valid()
  {
    NextInitialized(w.pool.arc.words, s.tick, w.pool.tickSpacing, w.zeroForOne)
  }

  /** The price the next step aims at: the next boundary, cut at the limit. */
  function Target(w: Walk, sqrtNext: nat): nat {
    if w.zeroForOne then (if sqrtNext < w.limit then w.limit else sqrtNext)
    else (if sqrtNext > w.limit then w.limit else sqrtNext)
  }

  const MAX_SIM_EMPTY_WORDS: nat := 2
  const MIN_V3_LIQUIDITY: nat := 100_000

  /** The words counted once this iteration's search is known. */
  function WordsAfter(w: Walk, s: WalkState): nat
    requires w.pool.Valid()
  {
    if Search(w, s).initialized then 0 else s.words + 1
  }

  /** Whether this iteration would cross one empty word too many with dust liquidity. */
  predicate InVoid(w: Walk, s: WalkState)
    requires w.pool.Valid()
  {
    w.stopsInVoid && WordsAfter(w, s) > MAX_SIM_EMPTY_WORDS && s.liquidity < MIN_V3_LIQUIDITY
  }

  function Amounts(w: Walk, s: WalkState, target: nat): Result<StepAmounts>
    requires w.pool.Valid()
  {
    if s.liquidity == 0 then Ok(StepAmounts(target, 0, 0, 0))
    else ComputeSwapStep(w.math, s.sqrtPrice, target, s.liquidity, s.remaining, w.pool.fee)
  }

  /** Two's-complement subtraction of input plus fee from the remaining amount. */
  function Spend(remaining: nat, amountIn: nat, fee: nat): nat {
    Wrapped(remaining - Wrapped(amountIn + fee))
  }

  /** The liquidity after crossing an initialized tick. */
  function CrossLiquidity(w: Walk, tickNext: int, liquidity: nat): (r: Result<nat>)
    ensures r.Ok? && liquidity < TWO128 ==> r.value < TWO128
  {
    if tickNext !in w.pool.ticks then Err(TickDataMissing)
    else
      var net := if w.zeroForOne then -w.pool.ticks[tickNext] else w.pool.ticks[tickNext];
      if net < 0 then
        if liquidity < -net then Err(LiquidityUnderflow) else Ok(liquidity + net)
      else Ok((liquidity + net) % TWO128)
  }

  function LandedTick(zeroForOne: bool, tickNext: int): int {
    if zeroForOne then tickNext - 1 else tickNext
  }

  /** One iteration of the loop. */
  function Body(w: Walk, s: WalkState): Result<Iteration>
    requires w.pool.Valid()
  {
    var next := Search(w, s);
    var tickNext := Clamp(next.tick);
    var sqrtNext := w.math.ratioAt(tickNext);
    var target := Target(w, sqrtNext);
    var a :- if InVoid(w, s) then Err(LiquidityVoid) else Amounts(w, s, target);
    var landed := a.next == sqrtNext;
    var liquidity :- if landed && next.initialized then CrossLiquidity(w, tickNext, s.liquidity) else Ok(s.liquidity);
    var tick :-
      if landed then Ok(LandedTick(w.zeroForOne, tickNext))
      else if a.next != s.sqrtPrice then w.math.tickAt(a.next)
      else Ok(s.tick);
    var after := WalkState(a.next, Spend(s.remaining, a.amountIn, a.fee), s.amountOut + a.amountOut, tick, liquidity,
                           WordsAfter(w, s));
    var chainable :=
      && landed && !next.initialized && tickNext == next.tick && target == sqrtNext
      && (w.needsLiquidity ==> liquidity >= 1);
    Ok(Iteration(after, SpanStep(tick, a.next, a.amountIn, a.amountOut, a.fee), chainable, landed))
  }

  // ---- What one iteration does ----

  lemma SpendAll(remaining: nat, amountIn: nat)
    requires remaining < TWO256
    ensures Spend(remaining, amountIn, Wrapped(remaining - amountIn)) == 0
  {
    var f := Wrapped(remaining - amountIn);
    WrappedIsRemainder(remaining - amountIn);
    var q := (remaining - amountIn) / TWO256;
    WrappedIsRemainder(amountIn + f);
    WrappedIsRemainder(remaining - Wrapped(amountIn + f));
    assert amountIn + f == remaining + (-q) * TWO256;
    ModShift(remaining, -q);
  }

  lemma SpendExact(remaining: nat, amountIn: nat, fee: nat)
    requires amountIn + fee <= remaining < TWO256
    ensures Spend(remaining, amountIn, fee) == remaining - amountIn - fee
  {
  }

  /** The step went the whole way to the price it aimed at, and its cost was affordable. */
  ghost predicate PriceLimited(w: Walk, s: WalkState)
    requires w.pool.Valid()
  {
    Body(w, s).Ok? &&
    var it := Body(w, s).value;
    && it.after.sqrtPrice == Target(w, w.math.ratioAt(Clamp(Search(w, s).tick)))
    && it.after.remaining == s.remaining - it.step.amountIn - it.step.fee
  }

  /** The swap step reaches its target and is affordable, or spends everything. */
  lemma AmountsKinds(w: Walk, s: WalkState, target: nat)
    requires w.Valid() && s.Valid() && Amounts(w, s, target).Ok?
    ensures
      var a := Amounts(w, s, target).value;
      || (a.next == target && a.amountIn + a.fee <= s.remaining)
      || (a.next != target && a.fee == Wrapped(s.remaining - a.amountIn))
  {
    if s.liquidity != 0 {
      StepAffordable(w.math, s.sqrtPrice, target, s.liquidity, s.remaining, w.pool.fee);
    }
  }

  /** Every step is price limited, or spends everything that remained. */
  lemma StepKinds(w: Walk, s: WalkState)
    requires w.Valid() && s.Valid() && Body(w, s).Ok?
    ensures PriceLimited(w, s) || Body(w, s).value.after.remaining == 0
    ensures Body(w, s).value.after.Valid()
    ensures Body(w, s).value.after.remaining <= s.remaining
  {
    var target := Target(w, w.math.ratioAt(Clamp(Search(w, s).tick)));
    var a := Amounts(w, s, target).value;
    AmountsKinds(w, s, target);
    if a.next == target {
      SpendExact(s.remaining, a.amountIn, a.fee);
    } else {
      SpendAll(s.remaining, a.amountIn);
    }
  }

  /**
   At a full fee an iteration with liquidity either fails, at its target, or ends the walk where it
   stands, with everything spent on the fee. Either way it lies on no chain.
   */
  lemma FullFeeIteration(w: Walk, s: WalkState)
    requires w.Valid() && s.Valid() && w.pool.fee == FEE_SCALE && s.liquidity >= 1 && !InVoid(w, s)
    requires StandsStill(w.math, s.sqrtPrice, s.liquidity)
    requires var t := Target(w, w.math.ratioAt(Clamp(Search(w, s).tick)));
             w.math.amountIn(s.sqrtPrice >= t, s.sqrtPrice, t, s.liquidity).Ok?
    ensures s.sqrtPrice == Target(w, w.math.ratioAt(Clamp(Search(w, s).tick))) ==> Body(w, s) == Err(FeeDivision)
    ensures
      Body(w, s).Ok? ==>
        var it := Body(w, s).value;
        && !it.chainable && it.step.fee == s.remaining
        && it.after.remaining == 0 && it.after.sqrtPrice == s.sqrtPrice && it.after.amountOut == s.amountOut
  {
    hide Search, SwapMath.ComputeSwapStep;
    var target := Target(w, w.math.ratioAt(Clamp(Search(w, s).tick)));
    FullFeeStep(w.math, s.sqrtPrice, target, s.liquidity, s.remaining);
    SpendAll(s.remaining, 0);
  }

  // ---- Termination ----

  function TicksLeft(zeroForOne: bool, tick: int): nat {
    if zeroForOne then (if tick >= MIN_TICK then tick - MIN_TICK + 1 else 0)
    else (if tick <= MAX_TICK then MAX_TICK - tick + 1 else 0)
  }

  /** What bounds the number of iterations still to come. */
  function Fuel(w: Walk, s: WalkState): nat {
    if Done(w, s) then 0 else 1 + TicksLeft(w.zeroForOne, s.tick)
  }

  lemma RatioWeaklyIncreasing(m: PriceMath, s: int, t: int)
    requires RatioIncreasing(m) && InTickRange(s) && InTickRange(t)
    ensures m.ratioAt(s) <= m.ratioAt(t) <==> s <= t
    ensures m.ratioAt(s) < m.ratioAt(t) <==> s < t
  {
    if s == t {
    } else if s < t {
      assert m.ratioAt(s) < m.ratioAt(t);
    } else {
      assert m.ratioAt(t) < m.ratioAt(s);
    }
  }

  /** Every iteration uses up fuel, so the loop stops whenever the limit lies in the tick range. */
  lemma BodyUsesFuel(w: Walk, s: WalkState)
    requires w.Valid() && s.Valid() && w.LimitInRange() && !Done(w, s) && Body(w, s).Ok?
    ensures Fuel(w, Body(w, s).value.after) < Fuel(w, s)
  {
    StepKinds(w, s);
    var next := Search(w, s).tick;
    var tickNext := Clamp(next);
    var it := Body(w, s).value;
    SearchMoves(w.pool.arc.words, s.tick, w.pool.tickSpacing, w.zeroForOne);
    if !Done(w, it.after) {
      assert it.landed;
      assert it.after.tick == LandedTick(w.zeroForOne, tickNext);
      RatioWeaklyIncreasing(w.math, MIN_TICK, tickNext);
      RatioWeaklyIncreasing(w.math, tickNext, MAX_TICK);
      assert w.zeroForOne ==> MIN_TICK < tickNext || w.math.ratioAt(tickNext) <= w.limit;
    }
  }

  /** From `s` the loop passes its guard n times in a row and the n bodies lead to `t`. */
  ghost predicate RunsTo(w: Walk, s: WalkState, n: nat, t: WalkState)
    requires w.pool.Valid()
    decreases n
  {
    if n == 0 then t == s
    else !Done(w, s) && Body(w, s).Ok? && RunsTo(w, Body(w, s).value.after, n - 1, t)
  }

  /** After n iterations the loop ends in `t`: its guard is closed, or its body fails there. */
  ghost predicate EndsAt(w: Walk, s: WalkState, n: nat, t: WalkState)
    requires w.pool.Valid()
  {
    RunsTo(w, s, n, t) && (Done(w, t) || Body(w, t).Err?)
  }

  ghost predicate Halts(w: Walk, s: WalkState)
    requires w.pool.Valid()
  {
    exists n: nat, t :: EndsAt(w, s, n, t)
  }

  /** What the loop returns from its last state. */
  function Returned(w: Walk, t: WalkState): Result<WalkState>
    requires w.pool.Valid() && (Done(w, t) || Body(w, t).Err?)
  {
    if Done(w, t) then Ok(t) else Err(Body(w, t).error)
  }

  /** The result of the whole loop, wherever it ends. */
  ghost function Outcome(w: Walk, s: WalkState): Result<WalkState>
    requires w.pool.Valid() && Halts(w, s)
  {
    var n: nat, t :| EndsAt(w, s, n, t);
    Returned(w, t)
  }

  /** A run of k iterations is the beginning of every run to the end. */
  lemma {:induction false} EndAfterRun(w: Walk, s: WalkState, n: nat, t: WalkState, k: nat, u: WalkState)
    requires w.pool.Valid() && EndsAt(w, s, n, t) && RunsTo(w, s, k, u)
    ensures k <= n && EndsAt(w, u, n - k, t)
    decreases k
  {
    hide Body, Done;
    if k > 0 {
      EndAfterRun(w, Body(w, s).value.after, n - 1, t, k - 1, u);
    }
  }

  lemma OneBody(w: Walk, s: WalkState)
    requires w.pool.Valid() && !Done(w, s) && Body(w, s).Ok?
    ensures RunsTo(w, s, 1, Body(w, s).value.after)
  {
    assert RunsTo(w, Body(w, s).value.after, 0, Body(w, s).value.after);
  }

  lemma {:induction false} RunAppends(w: Walk, s: WalkState, n: nat, t: WalkState, k: nat, u: WalkState)
    requires w.pool.Valid() && RunsTo(w, s, n, t) && RunsTo(w, t, k, u)
    ensures RunsTo(w, s, n + k, u)
    decreases n
  {
    hide Body, Done;
    if n > 0 {
      RunAppends(w, Body(w, s).value.after, n - 1, t, k, u);
    }
  }

  /** The loop is deterministic: it has one end. */
  lemma OutcomeIs(w: Walk, s: WalkState, n: nat, t: WalkState)
    requires w.pool.Valid() && EndsAt(w, s, n, t)
    ensures Halts(w, s) && Outcome(w, s) == Returned(w, t)
  {
    hide Body;
    assert Halts(w, s);
    var k: nat, u :| EndsAt(w, s, k, u) && Outcome(w, s) == Returned(w, u);
    assert RunsTo(w, s, k, u);
    EndAfterRun(w, s, n, t, k, u);
    EndAfterRun(w, s, k, u, n, t);
    assert RunsTo(w, t, 0, u);
  }

  /** Running part of the loop changes neither whether it ends nor what it ends with. */
  lemma RunKeepsOutcome(w: Walk, s: WalkState, k: nat, u: WalkState)
    requires w.pool.Valid() && Halts(w, s) && RunsTo(w, s, k, u)
    ensures Halts(w, u) && Outcome(w, u) == Outcome(w, s)
  {
    hide Body, Done, RunsTo;
    var n: nat, t :| EndsAt(w, s, n, t);
    EndAfterRun(w, s, n, t, k, u);
    OutcomeIs(w, s, n, t);
    OutcomeIs(w, u, n - k, t);
  }

  lemma {:induction false} RunKeepsValid(w: Walk, s: WalkState, k: nat, u: WalkState)
    requires w.Valid() && s.Valid() && RunsTo(w, s, k, u)
    ensures u.Valid() && u.remaining <= s.remaining
    decreases k
  {
    hide Body, Lawful;
    if k > 0 {
      StepKinds(w, s);
      RunKeepsValid(w, Body(w, s).value.after, k - 1, u);
    }
  }

  /** A run all of whose steps are price limited. */
  ghost predicate PriceLimitedRun(w: Walk, s: WalkState, n: nat, t: WalkState)
    requires w.pool.Valid()
    decreases n
  {
    if n == 0 then t == s
    else !Done(w, s) && PriceLimited(w, s) && PriceLimitedRun(w, Body(w, s).value.after, n - 1, t)
  }

  /** The last, amount-limited step of a walk: it leaves nothing. */
  ghost predicate SpendingStep(w: Walk, s: WalkState, t: WalkState)
    requires w.pool.Valid()
  {
    !Done(w, s) && Body(w, s).Ok? && Body(w, s).value.after == t && t.remaining == 0
  }

  /** A walk that ends without an error is a run of price-limited steps and at most one more, which leaves nothing. */
  lemma WalkShape(w: Walk, s: WalkState) returns (n: nat, mid: WalkState)
    requires w.Valid() && s.Valid() && Halts(w, s) && Outcome(w, s).Ok?
    ensures PriceLimitedRun(w, s, n, mid)
    ensures var t := Outcome(w, s).value; t == mid || SpendingStep(w, mid, t)
    ensures Done(w, Outcome(w, s).value)
  {
    hide Lawful, Body, PriceLimited;
    var k: nat, t :| EndsAt(w, s, k, t);
    OutcomeIs(w, s, k, t);
    n, mid := RunShape(w, s, k, t);
  }

  lemma {:induction false} RunShape(w: Walk, s: WalkState, k: nat, t: WalkState) returns (n: nat, mid: WalkState)
    requires w.Valid() && s.Valid() && RunsTo(w, s, k, t) && Done(w, t)
    ensures PriceLimitedRun(w, s, n, mid)
    ensures t == mid || SpendingStep(w, mid, t)
    decreases k
  {
    hide Lawful, Body, PriceLimited;
    if k == 0 {
      n, mid := 0, s;
    } else {
      var after := Body(w, s).value.after;
      StepKinds(w, s);
      if PriceLimited(w, s) {
        n, mid := RunShape(w, after, k - 1, t);
        n := n + 1;
      } else {
        assert k - 1 == 0 || !Done(w, after);
        n, mid := 0, s;
      }
    }
  }

  /** With its limit in the tick range the loop ends, within its fuel. */
  lemma {:induction false} HaltsInRange(w: Walk, s: WalkState) returns (n: nat, t: WalkState)
    requires w.Valid() && s.Valid() && w.LimitInRange()
    ensures EndsAt(w, s, n, t) && n <= Fuel(w, s)
    decreases Fuel(w, s)
  {
    hide Lawful;
    if Done(w, s) || Body(w, s).Err? {
      n, t := 0, s;
    } else {
      StepKinds(w, s);
      BodyUsesFuel(w, s);
      n, t := HaltsInRange(w, Body(w, s).value.after);
      n := n + 1;
    }
  }

  /** The iteration changes nothing but the word count. */
  ghost predicate OneMoreWord(w: Walk, s: WalkState)
    requires w.pool.Valid()
  {
    !Done(w, s) && Body(w, s).Ok? && Body(w, s).value.after == s.(words := s.words + 1)
  }

  ghost predicate Repeats(w: Walk, s: WalkState)
    requires w.pool.Valid()
  {
    forall words: nat :: OneMoreWord(w, s.(words := words))
  }

  lemma RepeatsNext(w: Walk, s: WalkState)
    requires w.pool.Valid() && Repeats(w, s)
    ensures OneMoreWord(w, s) && Repeats(w, s.(words := s.words + 1))
  {
    hide OneMoreWord;
    assert s.(words := s.words) == s;
    var next := s.(words := s.words + 1);
    forall words: nat ensures OneMoreWord(w, next.(words := words)) {
      assert next.(words := words) == s.(words := words);
    }
  }

  /** A body that changes nothing but the word count is repeated for ever. */
  lemma {:induction false} FixedPointRuns(w: Walk, s: WalkState, n: nat, t: WalkState)
    requires w.pool.Valid() && RunsTo(w, s, n, t) && Repeats(w, s)
    ensures t == s.(words := t.words)
    decreases n
  {
    hide Body, Done, Repeats;
    if n > 0 {
      RepeatsNext(w, s);
      FixedPointRuns(w, s.(words := s.words + 1), n - 1, t);
    }
  }

  /** A pool without liquidity resting beyond the last tick of its direction. */
  function EdgePool(math: PriceMath, zeroForOne: bool): (p: Pool)
    ensures p.Valid()
  {
    var tick := if zeroForOne then MIN_TICK - 1 else MAX_TICK;
    Pool(Arc(0, map[]), map[], 0, 0, 1, tick, math.ratioAt(if zeroForOne then MIN_TICK else MAX_TICK))
  }

  lemma EdgePoolStays(w: Walk, words: nat)
    requires w.pool == EdgePool(w.math, w.zeroForOne) && !w.LimitInRange() && !w.stopsInVoid
    ensures OneMoreWord(w, Start(w, 1).(words := words))
  {
    var x := Start(w, 1).(words := words);
    SearchMoves(map[], x.tick, 1, w.zeroForOne);
    assert !Search(w, x).initialized;
  }

  /** On the edge pool the loop never ends for a limit outside the tick range. */
  lemma EdgePoolStuck(w: Walk)
    requires w.pool == EdgePool(w.math, w.zeroForOne) && !w.LimitInRange() && !w.stopsInVoid
    ensures !Halts(w, Start(w, 1))
  {
    hide Body, Done;
    var s := Start(w, 1);
    forall words: nat ensures OneMoreWord(w, s.(words := words)) {
      EdgePoolStays(w, words);
    }
    forall n: nat, t | RunsTo(w, s, n, t) ensures !EndsAt(w, s, n, t) {
      FixedPointRuns(w, s, n, t);
      assert OneMoreWord(w, s.(words := t.words));
    }
  }

  /**
   Without the void test the loop stops on every pool and amount exactly when its price limit lies
   in the tick range.
   */
  lemma HaltsExactlyInRange(math: PriceMath, zeroForOne: bool, limit: nat, needsLiquidity: bool)
    requires Lawful(math)
    ensures
      (forall pool: Pool, amountIn: nat :: pool.Valid() && amountIn < TWO255 ==>
         var w := Walk(math, pool, zeroForOne, limit, needsLiquidity, false); Halts(w, Start(w, amountIn)))
      <==> (if zeroForOne then math.ratioAt(MIN_TICK) <= limit else limit <= math.ratioAt(MAX_TICK))
  {
    var edge := Walk(math, EdgePool(math, zeroForOne), zeroForOne, limit, needsLiquidity, false);
    if edge.LimitInRange() {
      forall pool: Pool, amountIn: nat | pool.Valid() && amountIn < TWO255
        ensures var w := Walk(math, pool, zeroForOne, limit, needsLiquidity, false); Halts(w, Start(w, amountIn))
      {
        var w := Walk(math, pool, zeroForOne, limit, needsLiquidity, false);
        var n, t := HaltsInRange(w, Start(w, amountIn));
      }
    } else {
      EdgePoolStuck(edge);
      assert !Halts(edge, Start(edge, 1));
      assert EdgePool(math, zeroForOne).Valid();
    }
  }

  // ---- Small walks ----

  /** No input, no change: the walk ends where its pool stands, with nothing paid. */
  lemma NothingSwapped(w: Walk)
    requires w.pool.Valid()
    ensures
      var p := w.pool;
      && Halts(w, Start(w, 0))
      && Outcome(w, Start(w, 0)).Ok?
      && var t := Outcome(w, Start(w, 0)).value;
         && t.sqrtPrice == p.sqrtPrice && t.tick == p.tick && t.liquidity == p.liquidity
         && t.remaining == 0 && t.amountOut == 0
  {
    var s := Start(w, 0);
    assert RunsTo(w, s, 0, s);
    OutcomeIs(w, s, 0, s);
  }

  /** n iterations in a row find no initialized tick. */
  ghost predicate NoTicks(w: Walk, s: WalkState, n: nat)
    requires w.pool.Valid()
    decreases n
  {
    n == 0 || (!Search(w, s).initialized && Body(w, s).Ok? && NoTicks(w, Body(w, s).value.after, n - 1))
  }

  lemma {:induction false} WordsAdd(w: Walk, s: WalkState, n: nat, t: WalkState)
    requires w.pool.Valid() && RunsTo(w, s, n, t) && NoTicks(w, s, n)
    ensures t.words == s.words + n
    decreases n
  {
    hide Search;
    if n > 0 {
      WordsAdd(w, Body(w, s).value.after, n - 1, t);
    }
  }

  /** The words counted are those passed since the last initialized tick was found. */
  lemma WordsSinceTick(w: Walk, s: WalkState, n: nat, t: WalkState)
    requires w.pool.Valid() && Search(w, s).initialized && Body(w, s).Ok?
    requires RunsTo(w, Body(w, s).value.after, n, t) && NoTicks(w, Body(w, s).value.after, n)
    ensures t.words == n
  {
    WordsAdd(w, Body(w, s).value.after, n, t);
  }
}
