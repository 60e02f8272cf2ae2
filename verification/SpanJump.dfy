/**
 How far a walk may jump along a chain, and why the jump equals the iterations it replaces.
 */
module SpanJump {
  import opened Wrappers
  import opened SwapMath
  import opened TickBitmap
  import opened ReferenceWalk
  import opened SpanChains
  import opened SpanTables

  datatype Jump = Jump(steps: nat, consumed: nat, amountOut: nat, endTick: int, endSqrt: nat)

  const MIN_JUMP_STEPS: nat := 2

  /** The test of the search: from boundary j with `remaining` left, step m is still affordable. */
  predicate Feasible(steps: seq<SpanStep>, denom: nat, j: nat, remaining: nat, m: nat)
    requires j <= m < |steps|
  {
    var delta := PrefixA(steps, m) - PrefixA(steps, j);
    && 0 <= delta <= remaining
    && (remaining - delta) * denom < TWO256
    && Envelope(steps, m) * FEE_SCALE < TWO256
    && (remaining - delta) * denom >= Envelope(steps, m) * FEE_SCALE
  }

  /** Once the first step is feasible the test is downward closed, overflow exits included. */
  lemma FeasibleDownward(steps: seq<SpanStep>, denom: nat, j: nat, remaining: nat, a: nat, b: nat)
    requires j <= a <= b < |steps|
    requires Feasible(steps, denom, j, remaining, j) && Feasible(steps, denom, j, remaining, b)
    ensures Feasible(steps, denom, j, remaining, a)
  {
    PrefixMonotone(steps, j, a);
    PrefixMonotone(steps, a, b);
    EnvelopeCovers(steps, a, b);
    DownwardArithmetic(denom, remaining, PrefixA(steps, a) - PrefixA(steps, j), PrefixA(steps, b) - PrefixA(steps, j));
  }

  lemma DownwardArithmetic(denom: nat, remaining: nat, da: nat, db: nat)
    requires da <= db <= remaining
    ensures (remaining - db) * denom <= (remaining - da) * denom <= remaining * denom
  {
    MulMonotone(denom, remaining - da, remaining);
    MulMonotone(denom, remaining - db, remaining - da);
  }

  /** The last step of the feasible run that starts at m, found by scanning. */
  function Farthest(steps: seq<SpanStep>, denom: nat, j: nat, remaining: nat, m: nat): (k: nat)
    requires j <= m < |steps|
    ensures m <= k < |steps|
    decreases |steps| - m
  {
    if m + 1 < |steps| && Feasible(steps, denom, j, remaining, m + 1)
    then Farthest(steps, denom, j, remaining, m + 1)
    else m
  }

  /** The scan stops at the greatest feasible step of all. */
  lemma {:induction false} FarthestIsGreatest(steps: seq<SpanStep>, denom: nat, j: nat, remaining: nat, m: nat, b: nat)
    requires j <= m < |steps| && j <= b < |steps|
    requires Feasible(steps, denom, j, remaining, j) && Feasible(steps, denom, j, remaining, m)
    ensures Feasible(steps, denom, j, remaining, Farthest(steps, denom, j, remaining, m))
    ensures Feasible(steps, denom, j, remaining, b) ==> b <= Farthest(steps, denom, j, remaining, m)
    decreases |steps| - m
  {
    hide Feasible;
    if m + 1 < |steps| {
      if Feasible(steps, denom, j, remaining, m + 1) {
        FarthestIsGreatest(steps, denom, j, remaining, m + 1, b);
      } else if m < b && Feasible(steps, denom, j, remaining, b) {
        FeasibleDownward(steps, denom, j, remaining, m + 1, b);
      }
    }
  }

  /** A run along the chain must not pass the price limit of this walk. */
  predicate LimitOutside(zeroForOne: bool, limit: nat, endSqrt: nat) {
    if zeroForOne then limit <= endSqrt else limit >= endSqrt
  }

  /** The jump over steps j to k. */
  function JumpOver(c: Chain, j: nat, k: nat): Jump
    requires j <= k < |c.steps|
  {
    PrefixMonotone(c.steps, j, k + 1);
    Jump(k + 1 - j, PrefixA(c.steps, k + 1) - PrefixA(c.steps, j),
         PrefixOut(c.steps, k + 1) - PrefixOut(c.steps, j), c.steps[k].endTick, c.steps[k].endSqrt)
  }

  /** The jump a chain offers from a state, if any. */
  function JumpOf(c: Chain, denom: nat, zeroForOne: bool, tick: int, sqrt: nat, remaining: nat,
                  limit: nat): Option<Jump> {
    match FirstBoundary(c, tick, 0)
    case None => None
    case Some(j) =>
      if remaining == 0 || j >= |c.steps| || c.SqrtAt(j) != sqrt || !Feasible(c.steps, denom, j, remaining, j) then None
      else
        var k := Farthest(c.steps, denom, j, remaining, j);
        if k + 1 - j < MIN_JUMP_STEPS || !LimitOutside(zeroForOne, limit, c.steps[k].endSqrt) then None
        else Some(JumpOver(c, j, k))
  }

  lemma JumpNeedsInput(c: Chain, denom: nat, zeroForOne: bool, tick: int, sqrt: nat, limit: nat)
    ensures JumpOf(c, denom, zeroForOne, tick, sqrt, 0, limit) == None
  {
  }

  // ---- The jump offered is the longest one the test admits ----

  /**
   What the test means on a sound chain: after paying exactly for steps j to m - 1 the rest would pay,
   fee included, for every input recorded up to step m, and the products stay below 2^256.
   */
  ghost predicate Passes(steps: seq<SpanStep>, denom: nat, j: nat, remaining: nat, m: nat)
    requires j <= m < |steps|
  {
    && Cost(steps, j, m) <= remaining
    && (remaining - Cost(steps, j, m)) * denom < TWO256
    && forall i :: 0 <= i <= m ==> steps[i].amountIn * FEE_SCALE <= (remaining - Cost(steps, j, m)) * denom
  }

  lemma FeasibleExactly(m: PriceMath, key: RunKey, c: Chain, denom: nat, j: nat, remaining: nat, k: nat)
    requires Lawful(m) && Sound(m, key, c) && j <= k < |c.steps|
    ensures Feasible(c.steps, denom, j, remaining, k) <==> Passes(c.steps, denom, j, remaining, k)
  {
    hide Lawful, Follows;
    PrefixesExact(m, key, c, j);
    PrefixesExact(m, key, c, k);
    CostSplits(c.steps, j, k);
    EnvelopeWitness(c.steps, k);
    if Cost(c.steps, j, k) <= remaining {
      var left := (remaining - Cost(c.steps, j, k)) * denom;
      forall i | 0 <= i <= k && Envelope(c.steps, k) * FEE_SCALE <= left
        ensures c.steps[i].amountIn * FEE_SCALE <= left
      {
        EnvelopeCovers(c.steps, i, k);
        MulMonotone(FEE_SCALE, c.steps[i].amountIn, Envelope(c.steps, k));
      }
    }
  }

  lemma EnvelopeWitness(steps: seq<SpanStep>, k: nat)
    requires k < |steps|
    ensures exists i :: 0 <= i <= k && steps[i].amountIn == Envelope(steps, k)
  {
    var i := EnvelopeAttained(steps, k);
  }

  /** Steps j to k are the longest run the test admits from this boundary, and may be jumped over. */
  ghost predicate LongestRun(c: Chain, denom: nat, zeroForOne: bool, tick: int, sqrt: nat, remaining: nat, limit: nat,
                             j: nat, k: nat)
  {
    && j < k < |c.steps| && c.TickAt(j) == tick && c.SqrtAt(j) == sqrt && remaining > 0
    && Passes(c.steps, denom, j, remaining, j) && Passes(c.steps, denom, j, remaining, k)
    && (forall b :: k < b < |c.steps| ==> !Passes(c.steps, denom, j, remaining, b))
    && (if zeroForOne then limit <= c.steps[k].endSqrt else c.steps[k].endSqrt <= limit)
  }

  /**
   The jump offered, exactly: over the longest run the test admits, with its exact cost and gain and
   its last tick and price; and none is offered exactly if there is no such run.
   */
  lemma JumpExactly(m: PriceMath, key: RunKey, c: Chain, denom: nat, zeroForOne: bool, tick: int, sqrt: nat,
                    remaining: nat, limit: nat)
    requires Lawful(m) && Sound(m, key, c)
    ensures
      var r := JumpOf(c, denom, zeroForOne, tick, sqrt, remaining, limit);
      && (r.None? <==> forall j: nat, k: nat :: !LongestRun(c, denom, zeroForOne, tick, sqrt, remaining, limit, j, k))
      && forall j: nat, k: nat :: LongestRun(c, denom, zeroForOne, tick, sqrt, remaining, limit, j, k) ==>
           r == Some(Jump(k + 1 - j, Cost(c.steps, j, k + 1), Gain(c.steps, j, k + 1),
                          c.steps[k].endTick, c.steps[k].endSqrt))
  {
    hide Lawful, Sound, Passes, JumpOf, Cost, Gain;
    forall j: nat, k: nat | LongestRun(c, denom, zeroForOne, tick, sqrt, remaining, limit, j, k)
      ensures JumpOf(c, denom, zeroForOne, tick, sqrt, remaining, limit) ==
                Some(Jump(k + 1 - j, Cost(c.steps, j, k + 1), Gain(c.steps, j, k + 1),
                          c.steps[k].endTick, c.steps[k].endSqrt))
    {
      LongestIsOffered(m, key, c, denom, zeroForOne, tick, sqrt, remaining, limit, j, k);
    }
    if JumpOf(c, denom, zeroForOne, tick, sqrt, remaining, limit).Some? {
      OfferedIsLongest(m, key, c, denom, zeroForOne, tick, sqrt, remaining, limit);
    }
  }

  lemma LongestIsOffered(m: PriceMath, key: RunKey, c: Chain, denom: nat, zeroForOne: bool, tick: int, sqrt: nat,
                         remaining: nat, limit: nat, j: nat, k: nat)
    requires Lawful(m) && Sound(m, key, c)
    requires LongestRun(c, denom, zeroForOne, tick, sqrt, remaining, limit, j, k)
    ensures JumpOf(c, denom, zeroForOne, tick, sqrt, remaining, limit) ==
              Some(Jump(k + 1 - j, Cost(c.steps, j, k + 1), Gain(c.steps, j, k + 1),
                        c.steps[k].endTick, c.steps[k].endSqrt))
  {
    hide Lawful, Sound, Passes, Feasible, Farthest, Cost, Gain, PrefixA, PrefixOut;
    IndexUnique(m, key, c, j);
    FeasibleExactly(m, key, c, denom, j, remaining, j);
    FeasibleExactly(m, key, c, denom, j, remaining, k);
    var f := Farthest(c.steps, denom, j, remaining, j);
    FarthestIsGreatest(c.steps, denom, j, remaining, j, k);
    FeasibleExactly(m, key, c, denom, j, remaining, f);
    assert f == k;
    JumpSums(m, key, c, j, k);
  }

  lemma OfferedIsLongest(m: PriceMath, key: RunKey, c: Chain, denom: nat, zeroForOne: bool, tick: int, sqrt: nat,
                         remaining: nat, limit: nat)
    requires Lawful(m) && Sound(m, key, c)
    requires JumpOf(c, denom, zeroForOne, tick, sqrt, remaining, limit).Some?
    ensures exists j: nat, k: nat :: LongestRun(c, denom, zeroForOne, tick, sqrt, remaining, limit, j, k)
  {
    hide Lawful, Sound, Passes, Feasible, Farthest, PrefixA, PrefixOut;
    var j := FirstBoundary(c, tick, 0).value;
    var k := Farthest(c.steps, denom, j, remaining, j);
    FarthestIsGreatest(c.steps, denom, j, remaining, j, j);
    FeasibleExactly(m, key, c, denom, j, remaining, j);
    FeasibleExactly(m, key, c, denom, j, remaining, k);
    forall b | k < b < |c.steps| ensures !Passes(c.steps, denom, j, remaining, b) {
      FarthestIsGreatest(c.steps, denom, j, remaining, j, b);
      FeasibleExactly(m, key, c, denom, j, remaining, b);
    }
    assert LongestRun(c, denom, zeroForOne, tick, sqrt, remaining, limit, j, k);
  }

  // ---- A jump is a run of the plain loop ----

  /** `amount` still pays for step i of the chain and for its fee. */
  predicate Affords(amount: nat, step: SpanStep, fee: nat)
    requires fee <= FEE_SCALE
  {
    amount * (FEE_SCALE - fee) >= step.amountIn * FEE_SCALE
  }

  function Advanced(s: WalkState, step: SpanStep): WalkState
    requires step.amountIn + step.fee <= s.remaining
  {
    WalkState(step.endSqrt, s.remaining - step.amountIn - step.fee, s.amountOut + step.amountOut, step.endTick,
              s.liquidity, s.words + 1)
  }

  /** The state a jump leads to; every skipped step is one more word without an initialized tick. */
  function Landed(s: WalkState, jump: Jump): WalkState
    requires jump.consumed <= s.remaining
  {
    WalkState(jump.endSqrt, s.remaining - jump.consumed, s.amountOut + jump.amountOut, jump.endTick, s.liquidity,
              s.words + jump.steps)
  }

  /** The jump a chain offers to a walk in state s. */
  function OfferTo(c: Chain, w: Walk, s: WalkState): Option<Jump>
    requires w.pool.Valid()
  {
    JumpOf(c, FEE_SCALE - w.pool.fee, w.zeroForOne, s.tick, s.sqrtPrice, s.remaining, w.limit)
  }

  /** The V4 loop jumps only with liquidity enough not to stop in a void. */
  predicate MayJump(w: Walk, liquidity: nat) {
    w.stopsInVoid ==> liquidity >= MIN_V3_LIQUIDITY
  }

  /** What an affordable word step costs, fee included, fits into the remaining amount. */
  lemma AffordsFee(m: PriceMath, key: RunKey, words: Bitmap, tick: int, sqrt: nat, amount: nat)
    requires key.Valid() && WordStep(m, key, words, tick, sqrt).Some?
    ensures var st := WordStep(m, key, words, tick, sqrt).value;
            Affords(amount, st, key.feePips) <==> st.amountIn + st.fee <= amount
  {
    if key.liquidity > 0 {
      var st := WordStep(m, key, words, tick, sqrt).value;
      NeverOverspends(amount, st.amountIn, key.feePips);
      PriceLimitedTest(amount, st.amountIn, key.feePips);
    }
  }

  /** An affordable whole-word step is what the swap step computes. */
  lemma WordStepAmounts(w: Walk, key: RunKey, s: WalkState)
    requires w.Valid() && key.Valid() && key == KeyOf(w, s.liquidity)
    requires WordStep(w.math, key, w.pool.arc.words, s.tick, s.sqrtPrice).Some?
    requires Affords(s.remaining, WordStep(w.math, key, w.pool.arc.words, s.tick, s.sqrtPrice).value, key.feePips)
    ensures
      var st := WordStep(w.math, key, w.pool.arc.words, s.tick, s.sqrtPrice).value;
      && Amounts(w, s, st.endSqrt) == Ok(StepAmounts(st.endSqrt, st.amountIn, st.amountOut, st.fee))
      && st.amountIn + st.fee <= s.remaining
  {
    hide Lawful;
    var st := WordStep(w.math, key, w.pool.arc.words, s.tick, s.sqrtPrice).value;
    AffordsFee(w.math, key, w.pool.arc.words, s.tick, s.sqrtPrice, s.remaining);
    PriceLimitedTest(s.remaining, st.amountIn, key.feePips);
  }

  /** One affordable step of a sound chain is exactly one iteration of the loop. */
  lemma WordStepIsBody(w: Walk, key: RunKey, s: WalkState)
    requires w.Valid() && s.Valid() && key.Valid() && key == KeyOf(w, s.liquidity) && s.remaining > 0
    requires MayJump(w, s.liquidity)
    requires Arrival(w.math, w.zeroForOne, s.tick, s.sqrtPrice)
    requires WordStep(w.math, key, w.pool.arc.words, s.tick, s.sqrtPrice).Some?
    requires var st := WordStep(w.math, key, w.pool.arc.words, s.tick, s.sqrtPrice).value;
             Affords(s.remaining, st, key.feePips) && LimitOutside(w.zeroForOne, w.limit, st.endSqrt)
    ensures
      var st := WordStep(w.math, key, w.pool.arc.words, s.tick, s.sqrtPrice).value;
      && !Done(w, s)
      && st.amountIn + st.fee <= s.remaining
      && Body(w, s).Ok? && Body(w, s).value.after == Advanced(s, st) && Body(w, s).value.step == st
  {
    hide Lawful, Amounts, FullStep, NextInitialized, Affords;
    var st := WordStep(w.math, key, w.pool.arc.words, s.tick, s.sqrtPrice).value;
    WordStepFacts(w.math, key, w.pool.arc.words, s.tick, s.sqrtPrice);
    WordStepAmounts(w, key, s);
    SpendExact(s.remaining, st.amountIn, st.fee);
    assert Target(w, st.endSqrt) == st.endSqrt;
  }

  /** The state after steps i to k of the chain. */
  function Jumped(s: WalkState, c: Chain, i: nat, k: nat): WalkState
    requires i <= k < |c.steps| && Cost(c.steps, i, k + 1) <= s.remaining
  {
    WalkState(c.steps[k].endSqrt, s.remaining - Cost(c.steps, i, k + 1),
              s.amountOut + Gain(c.steps, i, k + 1), c.steps[k].endTick, s.liquidity,
              s.words + (k + 1 - i))
  }

  /** After paying for steps i to j - 1, `remaining` still affords step j. */
  predicate Payable(steps: seq<SpanStep>, i: nat, j: nat, remaining: nat, fee: nat)
    requires i <= j < |steps| && fee <= FEE_SCALE
  {
    Cost(steps, i, j) <= remaining && Affords(remaining - Cost(steps, i, j), steps[j], fee)
  }

  /** Paying for a step never empties the amount if the next step is payable as well. */
  lemma PaidInFull(steps: seq<SpanStep>, i: nat, remaining: nat, key: RunKey)
    requires i + 1 < |steps| && key.Valid() && remaining > 0
    requires Payable(steps, i, i + 1, remaining, key.feePips)
    requires if key.liquidity == 0 then steps[i].amountIn == steps[i].fee == 0 else steps[i + 1].amountIn >= 1
    ensures remaining - steps[i].amountIn - steps[i].fee > 0
  {
    assert Cost(steps, i, i + 1) == steps[i].amountIn + steps[i].fee + Cost(steps, i + 1, i + 1);
  }

  /** From boundary i, if every step up to k is affordable in turn, the loop runs along the chain. */
  lemma {:induction false} RunAlong(w: Walk, key: RunKey, c: Chain, i: nat, k: nat, s: WalkState)
    requires w.Valid() && s.Valid() && key == KeyOf(w, s.liquidity)
    requires Sound(w.math, key, c) && c.bitmap == w.pool.arc && s.remaining > 0 && MayJump(w, s.liquidity)
    requires i <= k < |c.steps| && s.tick == c.TickAt(i) && s.sqrtPrice == c.SqrtAt(i)
    requires LimitOutside(w.zeroForOne, w.limit, c.steps[k].endSqrt)
    requires forall j :: i <= j <= k ==> Payable(c.steps, i, j, s.remaining, key.feePips)
    ensures Cost(c.steps, i, k + 1) <= s.remaining
    ensures RunsTo(w, s, k + 1 - i, Jumped(s, c, i, k))
    decreases k - i
  {
    hide Lawful, WordStep, Body, Affords;
    ArrivalAt(w.math, key, c, i);
    assert Follows(w.math, key, c, i);
    var st := c.steps[i];
    if i < k {
      ChainMonotone(w.math, key, c, i + 1, k + 1);
    }
    assert Payable(c.steps, i, i, s.remaining, key.feePips);
    WordStepIsBody(w, key, s);
    var after := Advanced(s, st);
    if i < k {
      ChainStepFacts(w.math, key, c, i);
      ChainStepFacts(w.math, key, c, i + 1);
      assert Payable(c.steps, i, i + 1, s.remaining, key.feePips);
      PaidInFull(c.steps, i, s.remaining, key);
      var next := i + 1;
      forall j | next <= j <= k ensures Payable(c.steps, next, j, after.remaining, key.feePips) {
        assert Payable(c.steps, i, j, s.remaining, key.feePips);
      }
      RunAlong(w, key, c, next, k, after);
    } else {
      CostExtends(c.steps, i, i);
      assert Jumped(s, c, i, i) == after;
      assert RunsTo(w, after, 0, after);
    }
  }

  /** A feasible step is affordable after everything before it has been paid. */
  lemma FeasibleAffords(m: PriceMath, key: RunKey, c: Chain, j: nat, remaining: nat, i: nat)
    requires Lawful(m) && Sound(m, key, c) && j <= i < |c.steps|
    requires Feasible(c.steps, FEE_SCALE - key.feePips, j, remaining, i)
    ensures Payable(c.steps, j, i, remaining, key.feePips)
  {
    hide Lawful, Follows;
    PrefixesExact(m, key, c, j);
    PrefixesExact(m, key, c, i);
    CostSplits(c.steps, j, i);
    EnvelopeCovers(c.steps, i, i);
    MulMonotone(FEE_SCALE, c.steps[i].amountIn, Envelope(c.steps, i));
  }

  /** Every step up to the farthest feasible one is payable in turn. */
  lemma FarthestPayable(m: PriceMath, key: RunKey, c: Chain, j: nat, remaining: nat, i: nat)
    requires Lawful(m) && Sound(m, key, c) && key.Valid() && j <= i < |c.steps|
    requires Feasible(c.steps, FEE_SCALE - key.feePips, j, remaining, j)
    requires i <= Farthest(c.steps, FEE_SCALE - key.feePips, j, remaining, j)
    ensures Payable(c.steps, j, i, remaining, key.feePips)
  {
    hide Lawful, Sound, Feasible, Payable, PrefixA, Envelope, Cost;
    var denom := FEE_SCALE - key.feePips;
    FarthestIsGreatest(c.steps, denom, j, remaining, j, j);
    FeasibleDownward(c.steps, denom, j, remaining, i, Farthest(c.steps, denom, j, remaining, j));
    FeasibleAffords(m, key, c, j, remaining, i);
  }

  /** The sums a jump announces are the exact cost and gain of the steps it skips. */
  lemma JumpSums(m: PriceMath, key: RunKey, c: Chain, j: nat, k: nat)
    requires Lawful(m) && Sound(m, key, c) && j <= k < |c.steps|
    ensures JumpOver(c, j, k).consumed == Cost(c.steps, j, k + 1)
    ensures JumpOver(c, j, k).amountOut == Gain(c.steps, j, k + 1)
  {
    hide Lawful, Sound, PrefixA, PrefixOut;
    PrefixesExact(m, key, c, j);
    PrefixesExact(m, key, c, k + 1);
    CostSplits(c.steps, j, k + 1);
  }

  /**
   A jump of n steps is n iterations of the plain loop: the guard is open before each of them, none
   crosses an initialized tick, and they end in exactly the state the jump announces, with nothing
   overspent.
   */
  lemma JumpIsRun(w: Walk, key: RunKey, c: Chain, s: WalkState)
    requires w.Valid() && s.Valid() && key == KeyOf(w, s.liquidity)
    requires key.Valid() && Sound(w.math, key, c) && c.bitmap == w.pool.arc && MayJump(w, s.liquidity)
    requires OfferTo(c, w, s).Some?
    ensures
      var jump := OfferTo(c, w, s).value;
      && jump.steps >= MIN_JUMP_STEPS
      && jump.consumed <= s.remaining
      && RunsTo(w, s, jump.steps, Landed(s, jump))
      && Arrival(w.math, w.zeroForOne, jump.endTick, jump.endSqrt)
  {
    hide Lawful, Sound, Feasible, Farthest, RunsTo, Payable, PrefixA, PrefixOut, Cost, Gain, Arrival;
    var j := FirstBoundary(c, s.tick, 0).value;
    var k := Farthest(c.steps, FEE_SCALE - key.feePips, j, s.remaining, j);
    forall i | j <= i <= k ensures Payable(c.steps, j, i, s.remaining, key.feePips) {
      FarthestPayable(w.math, key, c, j, s.remaining, i);
    }
    RunAlong(w, key, c, j, k, s);
    JumpSums(w.math, key, c, j, k);
    ArrivalAt(w.math, key, c, k + 1);
  }

  /**
   Two words into the void the liquidity gate is exactly what a jump needs: above it the jump is a
   run of the loop, below it the loop would give up at the first step the jump skips.
   */
  lemma JumpIsRunExactly(w: Walk, key: RunKey, c: Chain, s: WalkState)
    requires w.Valid() && s.Valid() && key == KeyOf(w, s.liquidity)
    requires key.Valid() && Sound(w.math, key, c) && c.bitmap == w.pool.arc
    requires OfferTo(c, w, s).Some? && OfferTo(c, w, s).value.consumed <= s.remaining
    requires s.words >= MAX_SIM_EMPTY_WORDS
    ensures
      var jump := OfferTo(c, w, s).value;
      RunsTo(w, s, jump.steps, Landed(s, jump)) <==> MayJump(w, s.liquidity)
  {
    hide Lawful, Arrival, Feasible, Farthest, FullStep, Amounts, PrefixA, PrefixOut;
    if MayJump(w, s.liquidity) {
      JumpIsRun(w, key, c, s);
    } else {
      var j := FirstBoundary(c, s.tick, 0).value;
      assert Follows(w.math, key, c, j);
      assert !Search(w, s).initialized;
      assert Body(w, s).Err?;
    }
  }
}
