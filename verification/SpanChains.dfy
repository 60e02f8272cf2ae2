/**
 Recorded chains of word steps: what a chain means, where its boundaries lie, and how two
 recordings of one run are merged.
 */
module SpanChains {
  import opened Wrappers
  import opened SwapMath
  import opened TickBitmap
  import opened ReferenceWalk

  datatype RunKey = RunKey(bitmapPtr: nat, zeroForOne: bool, tickSpacing: int, liquidity: nat, feePips: nat) {
    predicate Valid() {
      tickSpacing >= 1 && feePips <= FEE_SCALE && liquidity < TWO128
    }
  }

  function KeyOf(w: Walk, liquidity: nat): RunKey {
    RunKey(w.pool.arc.ptr, w.zeroForOne, w.pool.tickSpacing, liquidity, w.pool.fee)
  }

  /** A recorded run of steps: where it starts, and the bitmap it was recorded under. */
  datatype Chain = Chain(bitmap: Arc, firstTick: int, firstSqrt: nat, steps: seq<SpanStep>) {

    /** The tick before step i (after step i - 1). */
    function TickAt(i: nat): int
      requires i <= |steps|
    {
      if i == 0 then firstTick else steps[i - 1].endTick
    }

    function SqrtAt(i: nat): nat
      requires i <= |steps|
    {
      if i == 0 then firstSqrt else steps[i - 1].endSqrt
    }
  }

  /** The constants of a step all the way to the target; without liquidity it is free. */
  function WholeWord(m: PriceMath, key: RunKey, sqrt: nat, target: nat): Result<StepAmounts>
    requires key.Valid()
  {
    if key.liquidity == 0 then Ok(StepAmounts(target, 0, 0, 0))
    else FullStep(m, sqrt, target, key.liquidity, key.feePips)
  }

  /**
   The one deterministic step function behind every chain: the whole-word, price-limited step of
   `key` from a state, if the word holds no initialized tick ahead.
   */
  function WordStep(m: PriceMath, key: RunKey, words: Bitmap, tick: int, sqrt: nat): Option<SpanStep>
    requires key.Valid()
  {
    var next := NextInitialized(words, tick, key.tickSpacing, key.zeroForOne);
    if next.initialized || !InTickRange(next.tick) then None
    else
      match WholeWord(m, key, sqrt, m.ratioAt(next.tick))
      case Ok(a) => Some(SpanStep(LandedTick(key.zeroForOne, next.tick), a.next, a.amountIn, a.amountOut, a.fee))
      case Err(_) => None
  }

  /** The state a walk is in after landing on a word boundary: the tick alone fixes the price. */
  predicate Arrival(m: PriceMath, zeroForOne: bool, tick: int, sqrt: nat) {
    var edge := if zeroForOne then tick + 1 else tick;
    InTickRange(edge) && sqrt == m.ratioAt(edge)
  }

  /** Step i of the chain is the word step from the boundary before it. */
  ghost predicate Follows(m: PriceMath, key: RunKey, c: Chain, i: nat)
    requires key.Valid() && i < |c.steps|
  {
    WordStep(m, key, c.bitmap.words, c.TickAt(i), c.SqrtAt(i)) == Some(c.steps[i])
  }

  /** A chain means: the iterates of `WordStep` from an arrival state, under the anchored bitmap. */
  ghost predicate Sound(m: PriceMath, key: RunKey, c: Chain) {
    && key.Valid()
    && c.bitmap.ptr == key.bitmapPtr
    && Arrival(m, key.zeroForOne, c.firstTick, c.firstSqrt)
    && forall i :: 0 <= i < |c.steps| ==> Follows(m, key, c, i)
  }

  /** `t` lies strictly beyond `s` in the direction of the walk. */
  predicate Beyond(zeroForOne: bool, s: int, t: int) {
    if zeroForOne then t < s else t > s
  }

  // ---- Facts about one word step ----

  lemma FeeBounded(amountIn: nat, fee: nat)
    requires fee < FEE_SCALE && amountIn < AMOUNT_CEILING
    ensures CeilDiv(amountIn * fee, FEE_SCALE - fee) <= AMOUNT_CEILING * FEE_SCALE
  {
    MulMonotone(amountIn, fee, FEE_SCALE);
    CeilAtMost(amountIn * fee, FEE_SCALE - fee, amountIn * fee);
    MulMonotone(amountIn * fee, 1, FEE_SCALE - fee);
  }

  /** A word step lands on the next boundary, moves tick and price strictly, and costs at least one
   unit if there is liquidity and nothing otherwise. */
  lemma WordStepFacts(m: PriceMath, key: RunKey, words: Bitmap, tick: int, sqrt: nat)
    requires Lawful(m) && key.Valid() && Arrival(m, key.zeroForOne, tick, sqrt)
    requires WordStep(m, key, words, tick, sqrt).Some?
    ensures
      var st := WordStep(m, key, words, tick, sqrt).value;
      && Arrival(m, key.zeroForOne, st.endTick, st.endSqrt)
      && Beyond(key.zeroForOne, tick, st.endTick)
      && Beyond(key.zeroForOne, sqrt, st.endSqrt)
      && (if key.liquidity == 0 then st.amountIn == st.amountOut == st.fee == 0 else st.amountIn >= 1)
      && st.amountIn < AMOUNT_CEILING && st.amountOut < AMOUNT_CEILING
      && st.fee <= AMOUNT_CEILING * FEE_SCALE
  {
    var next := NextInitialized(words, tick, key.tickSpacing, key.zeroForOne).tick;
    var edge := if key.zeroForOne then tick + 1 else tick;
    SearchMoves(words, tick, key.tickSpacing, key.zeroForOne);
    RatioWeaklyIncreasing(m, next, edge);
    RatioWeaklyIncreasing(m, MIN_TICK, next);
    RatioWeaklyIncreasing(m, MIN_TICK, edge);
    RatioWeaklyIncreasing(m, next, MAX_TICK);
    RatioWeaklyIncreasing(m, edge, MAX_TICK);
    var st := WordStep(m, key, words, tick, sqrt).value;
    if key.liquidity > 0 {
      FeeBounded(m.amountIn(sqrt >= m.ratioAt(next), sqrt, m.ratioAt(next), key.liquidity).value, key.feePips);
    }
  }

  // ---- Facts about a whole chain ----

  /** Every boundary of a sound chain is an arrival state. */
  lemma {:induction false} ArrivalAt(m: PriceMath, key: RunKey, c: Chain, i: nat)
    requires Lawful(m) && Sound(m, key, c) && i <= |c.steps|
    ensures Arrival(m, key.zeroForOne, c.TickAt(i), c.SqrtAt(i))
    decreases i
  {
    hide WordStep, Lawful;
    if i > 0 {
      ArrivalAt(m, key, c, i - 1);
      assert Follows(m, key, c, i - 1);
      WordStepFacts(m, key, c.bitmap.words, c.TickAt(i - 1), c.SqrtAt(i - 1));
    }
  }

  /** What each step of a sound chain guarantees. */
  lemma ChainStepFacts(m: PriceMath, key: RunKey, c: Chain, i: nat)
    requires Lawful(m) && Sound(m, key, c) && i < |c.steps|
    ensures
      && Beyond(key.zeroForOne, c.TickAt(i), c.TickAt(i + 1))
      && Beyond(key.zeroForOne, c.SqrtAt(i), c.SqrtAt(i + 1))
      && (if key.liquidity == 0 then c.steps[i].amountIn == c.steps[i].fee == 0 else c.steps[i].amountIn >= 1)
      && c.steps[i].amountIn < AMOUNT_CEILING && c.steps[i].amountOut < AMOUNT_CEILING
      && c.steps[i].fee <= AMOUNT_CEILING * FEE_SCALE
  {
    hide WordStep, Lawful;
    ArrivalAt(m, key, c, i);
    assert Follows(m, key, c, i);
    WordStepFacts(m, key, c.bitmap.words, c.TickAt(i), c.SqrtAt(i));
  }

  /** Along a sound chain tick and price move strictly, so a tick names at most one boundary. */
  lemma {:induction false} ChainMonotone(m: PriceMath, key: RunKey, c: Chain, i: nat, j: nat)
    requires Lawful(m) && Sound(m, key, c) && i < j <= |c.steps|
    ensures Beyond(key.zeroForOne, c.TickAt(i), c.TickAt(j))
    ensures Beyond(key.zeroForOne, c.SqrtAt(i), c.SqrtAt(j))
    ensures if key.zeroForOne then c.TickAt(i) - c.TickAt(j) >= j - i else c.TickAt(j) - c.TickAt(i) >= j - i
    decreases j
  {
    hide WordStep, Lawful;
    ChainStepFacts(m, key, c, j - 1);
    if i < j - 1 {
      ChainMonotone(m, key, c, i, j - 1);
    }
  }

  const CHAIN_CEILING: nat := 0x20_0000

  /** The tick range bounds the length of every sound chain. */
  lemma ChainLength(m: PriceMath, key: RunKey, c: Chain)
    requires Lawful(m) && Sound(m, key, c)
    ensures |c.steps| <= CHAIN_CEILING
  {
    if |c.steps| > 0 {
      ChainMonotone(m, key, c, 0, |c.steps|);
      ArrivalAt(m, key, c, 0);
      ArrivalAt(m, key, c, |c.steps|);
    }
  }

  /** Appending the next word step keeps a chain sound. */
  lemma AppendSound(m: PriceMath, key: RunKey, c: Chain, step: SpanStep)
    requires Sound(m, key, c)
    requires WordStep(m, key, c.bitmap.words, c.TickAt(|c.steps|), c.SqrtAt(|c.steps|)) == Some(step)
    ensures Sound(m, key, c.(steps := c.steps + [step]))
  {
    hide WordStep, Lawful;
    var d := c.(steps := c.steps + [step]);
    forall i | 0 <= i < |d.steps| ensures Follows(m, key, d, i) {
      if i < |c.steps| {
        SameStep(m, key, c, i, d, i);
      }
    }
  }

  /** A step that reads the same in two chains of one bitmap follows in both. */
  lemma SameStep(m: PriceMath, key: RunKey, c: Chain, i: nat, d: Chain, j: nat)
    requires key.Valid() && i < |c.steps| && j < |d.steps| && c.bitmap == d.bitmap
    requires c.TickAt(i) == d.TickAt(j) && c.SqrtAt(i) == d.SqrtAt(j) && c.steps[i] == d.steps[j]
    ensures Follows(m, key, c, i) ==> Follows(m, key, d, j)
  {
  }

  // ---- Overlapping recordings ----

  /** Two sound chains of one key and bitmap that meet in a tick agree from there on. */
  lemma {:induction false} ChainsAgree(m: PriceMath, key: RunKey, c: Chain, d: Chain, i: nat, j: nat, k: nat)
    requires Lawful(m) && Sound(m, key, c) && Sound(m, key, d) && c.bitmap == d.bitmap
    requires i + k <= |c.steps| && j + k <= |d.steps| && c.TickAt(i) == d.TickAt(j)
    ensures c.TickAt(i + k) == d.TickAt(j + k) && c.SqrtAt(i + k) == d.SqrtAt(j + k)
    ensures k > 0 ==> c.steps[i + k - 1] == d.steps[j + k - 1]
    decreases k
  {
    hide WordStep, Lawful;
    if k == 0 {
      ArrivalAt(m, key, c, i);
      ArrivalAt(m, key, d, j);
    } else {
      ChainsAgree(m, key, c, d, i, j, k - 1);
      assert Follows(m, key, c, i + k - 1);
      assert Follows(m, key, d, j + k - 1);
    }
  }

  /** The chain with the part of `more` that goes past its end, `more` starting at boundary `start`. */
  function Merged(c: Chain, start: nat, more: seq<SpanStep>): Chain
    requires start <= |c.steps| && |c.steps| - start <= |more|
  {
    c.(steps := c.steps + more[|c.steps| - start..])
  }

  /** What the merged chain reads: the old steps first, and the new recording from `start` on. */
  lemma MergedReads(m: PriceMath, key: RunKey, c: Chain, d: Chain, start: nat)
    requires Lawful(m) && Sound(m, key, c) && Sound(m, key, d) && c.bitmap == d.bitmap
    requires start <= |c.steps| && c.TickAt(start) == d.firstTick && |c.steps| - start <= |d.steps|
    ensures c.steps <= Merged(c, start, d.steps).steps
    ensures Merged(c, start, d.steps).steps[start..] == d.steps
    ensures c.SqrtAt(start) == d.firstSqrt
  {
    hide WordStep, Lawful, Sound;
    ChainsAgree(m, key, c, d, start, 0, 0);
    forall i | 0 <= i < |c.steps| - start ensures c.steps[start + i] == d.steps[i] {
      ChainsAgree(m, key, c, d, start, 0, i + 1);
    }
  }

  /** Merging an overlapping recording keeps the meaning of the chain. */
  lemma MergeSound(m: PriceMath, key: RunKey, c: Chain, d: Chain, start: nat)
    requires Lawful(m) && Sound(m, key, c) && Sound(m, key, d) && c.bitmap == d.bitmap
    requires start <= |c.steps| && c.TickAt(start) == d.firstTick && |c.steps| - start <= |d.steps|
    ensures Sound(m, key, Merged(c, start, d.steps))
  {
    hide Follows, Lawful;
    var e := Merged(c, start, d.steps);
    MergedReads(m, key, c, d, start);
    forall i | 0 <= i < |e.steps| ensures Follows(m, key, e, i) {
      if i < |c.steps| {
        SameStep(m, key, c, i, e, i);
      } else {
        MergedBoundary(e, d, start, i - start);
        SameStep(m, key, d, i - start, e, i);
      }
    }
  }

  lemma MergedBoundary(e: Chain, d: Chain, start: nat, j: nat)
    requires start <= |e.steps| && e.steps[start..] == d.steps && j < |d.steps|
    requires e.TickAt(start) == d.firstTick && e.SqrtAt(start) == d.firstSqrt
    ensures e.TickAt(start + j) == d.TickAt(j) && e.SqrtAt(start + j) == d.SqrtAt(j)
    ensures e.steps[start + j] == d.steps[j]
  {
    assert d.steps[j] == e.steps[start..][j];
    if j > 0 {
      assert d.steps[j - 1] == e.steps[start..][j - 1];
    }
  }
}
