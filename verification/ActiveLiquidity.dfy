/**
 What the liquidity of a walk means: at every moment it is the sum of the net liquidity of all ticks
 at or below the current one, in both directions, and the current tick is the one of the price.
 */
module ActiveLiquidity {
  import opened Wrappers
  import opened SwapMath
  import opened TickBitmap
  import opened ReferenceWalk

  /** What crossing tick t upwards adds. */
  function Net(p: Pool, t: int): int {
    if t in p.ticks then p.ticks[t] else 0
  }

  /** The net liquidity of all ticks up to t. */
  function Active(p: Pool, t: int): int
    decreases t - MIN_TICK + 1
  {
    if t < MIN_TICK then 0 else Active(p, t - 1) + Net(p, t)
  }

  /** Bitmap and ticks agree: set bits are ticks in the range, and ticks with net liquidity are set. */
  ghost predicate Agree(p: Pool)
    requires p.Valid()
  {
    && (forall c :: IsSet(p.arc.words, c) ==> InTickRange(c * p.tickSpacing) && c * p.tickSpacing in p.ticks)
    && forall t :: t in p.ticks && p.ticks[t] != 0 ==>
         InTickRange(t) && t % p.tickSpacing == 0 && IsSet(p.arc.words, t / p.tickSpacing)
  }

  /** At every tick the active liquidity is a 128-bit amount. */
  ghost predicate Balanced(p: Pool) {
    forall t :: 0 <= Active(p, t) < TWO128
  }

  /** The tick is the one the price lies in; at the border going down it is still the one below. */
  ghost predicate Located(m: PriceMath, tick: int, sqrt: nat) {
    && m.ratioAt(MIN_TICK) <= sqrt <= m.ratioAt(MAX_TICK)
    && MIN_TICK - 1 <= tick <= MAX_TICK
    && (tick >= MIN_TICK ==> m.ratioAt(tick) <= sqrt)
    && (tick < MAX_TICK ==> sqrt <= m.ratioAt(tick + 1))
  }

  /** The price limit lies ahead of the price or at it. */
  predicate LimitAhead(w: Walk, sqrt: nat) {
    if w.zeroForOne then w.limit <= sqrt else sqrt <= w.limit
  }

  ghost predicate Placed(w: Walk, s: WalkState) {
    Located(w.math, s.tick, s.sqrtPrice) && LimitAhead(w, s.sqrtPrice) && s.liquidity == Active(w.pool, s.tick)
  }

  ghost predicate Sane(w: Walk) {
    w.Valid() && Placing(w.math) && Agree(w.pool) && Balanced(w.pool)
  }

  lemma {:induction false} NothingBetween(p: Pool, a: int, b: int)
    requires a <= b && forall t :: a < t <= b ==> Net(p, t) == 0
    ensures Active(p, a) == Active(p, b)
    decreases b - a
  {
    if a < b {
      assert Net(p, b) == 0;
      NothingBetween(p, a, b - 1);
      if b < MIN_TICK {
        assert Active(p, b) == 0;
      }
    }
  }

  lemma Multiples(t: int, spacing: int, k: int)
    requires spacing >= 1 && t % spacing == 0
    ensures t == (t / spacing) * spacing
    ensures t <= k * spacing <==> t / spacing <= k
    ensures t < k * spacing <==> t / spacing < k
  {
    var q := t / spacing;
    if q <= k { Scaled(q, k, spacing); } else { Scaled(k + 1, q, spacing); }
    if q < k { Scaled(q + 1, k, spacing); } else { Scaled(k, q, spacing); }
  }

  lemma SearchRange(tick: int, spacing: int)
    requires spacing >= 1 && MIN_TICK - 1 <= tick <= MAX_TICK
    ensures Unaliased(tick / spacing) && Unaliased(tick / spacing + 1)
  {
    FloorBrackets(tick, spacing);
    var q := tick / spacing;
    if q > MAX_TICK {
      Scaled(1, spacing, q);
    }
    if q < MIN_TICK - 1 {
      Scaled(q + 1, MIN_TICK - 1, spacing);
    }
  }

  /** Between the current tick and the one the search finds no tick changes the liquidity. */
  lemma NothingSkipped(w: Walk, s: WalkState)
    requires Sane(w) && MIN_TICK - 1 <= s.tick <= MAX_TICK
    ensures
      var r := Search(w, s);
      && (r.initialized ==> InTickRange(r.tick) && r.tick in w.pool.ticks)
      && (!r.initialized ==> Net(w.pool, r.tick) == 0)
      && (if w.zeroForOne then r.tick <= s.tick else s.tick < r.tick)
      && forall t :: (if w.zeroForOne then r.tick < t <= s.tick else s.tick < t < r.tick) ==> Net(w.pool, t) == 0
  {
    hide Lawful, Placing, Balanced, NextInitialized;
    var p, spacing := w.pool, w.pool.tickSpacing;
    SearchRange(s.tick, spacing);
    SearchMoves(p.arc.words, s.tick, spacing, w.zeroForOne);
    FloorBrackets(s.tick, spacing);
    var k := NearestTick(p.arc.words, s.tick, spacing, w.zeroForOne);
    var q := s.tick / spacing;
    assert k * spacing / spacing == k && k * spacing % spacing == 0 by {
      Whole(k, spacing);
    }
    forall t | (if w.zeroForOne then k * spacing < t <= s.tick else s.tick < t < k * spacing) ensures Net(p, t) == 0 {
      if t % spacing == 0 {
        Multiples(t, spacing, k);
        Multiples(t, spacing, q);
        Multiples(t, spacing, q + 1);
        assert !IsSet(p.arc.words, t / spacing);
      }
    }
  }

  lemma Whole(k: int, spacing: int)
    requires spacing >= 1
    ensures k * spacing / spacing == k && k * spacing % spacing == 0
  {
    var q := k * spacing / spacing;
    FloorBrackets(k * spacing, spacing);
    if q < k {
      Scaled(q + 1, k, spacing);
    } else if q > k {
      Scaled(k + 1, q, spacing);
    }
  }

  /** Landing on the next tick changes the active liquidity by exactly what is crossed there. */
  lemma CrossedActive(w: Walk, s: WalkState)
    requires Sane(w) && MIN_TICK - 1 <= s.tick <= MAX_TICK
    ensures
      var r := Search(w, s);
      var t := Clamp(r.tick);
      && (r.initialized ==> t == r.tick && t in w.pool.ticks)
      && Active(w.pool, LandedTick(w.zeroForOne, t)) ==
           Active(w.pool, s.tick)
           + (if !r.initialized then 0 else if w.zeroForOne then -w.pool.ticks[t] else w.pool.ticks[t])
  {
    hide Lawful, Placing, Balanced, NextInitialized, Agree, Active;
    var r := Search(w, s);
    var t := Clamp(r.tick);
    NothingSkipped(w, s);
    if w.zeroForOne {
      if t <= s.tick {
        NothingBetween(w.pool, t, s.tick);
        OneMore(w.pool, t);
        NothingBelow(w.pool, r.tick, t);
      }
    } else if s.tick < t {
      NothingBetween(w.pool, s.tick, t - 1);
      OneMore(w.pool, t);
    }
  }

  lemma OneMore(p: Pool, t: int)
    requires t >= MIN_TICK
    ensures Active(p, t) == Active(p, t - 1) + Net(p, t)
  {
  }

  lemma NothingBelow(p: Pool, next: int, t: int)
    requires t == Clamp(next)
    ensures t > next ==> Active(p, t - 1) == 0
  {
  }

  /** A crossing leaves exactly the active liquidity beyond it, and never runs short. */
  lemma CrossingSucceeds(w: Walk, s: WalkState)
    requires Sane(w) && Placed(w, s)
    requires Search(w, s).initialized
    ensures
      var t := Clamp(Search(w, s).tick);
      CrossLiquidity(w, t, s.liquidity) == Ok(Active(w.pool, LandedTick(w.zeroForOne, t)))
  {
    hide Lawful, Placing, Agree, Active, NextInitialized;
    CrossedActive(w, s);
    var t := Clamp(Search(w, s).tick);
    assert 0 <= Active(w.pool, LandedTick(w.zeroForOne, t)) < TWO128;
  }

  /** A step moves the price between where it was and where it aims. */
  lemma StepBetween(w: Walk, s: WalkState, target: nat)
    requires Sane(w) && s.Valid() && Amounts(w, s, target).Ok?
    ensures
      var v := Amounts(w, s, target).value.next;
      if s.sqrtPrice >= target then target <= v <= s.sqrtPrice else s.sqrtPrice <= v <= target
  {
    hide Lawful, Placing, Agree, Balanced, SwapMath.ComputeSwapStep;
    if s.liquidity > 0 {
      ComputedBetween(w.math, s.sqrtPrice, target, s.liquidity, s.remaining, w.pool.fee);
    }
  }

  /** The next tick's price, and so the price aimed at, lies ahead. */
  lemma TargetAhead(w: Walk, s: WalkState)
    requires Sane(w) && Placed(w, s)
    ensures
      var next := w.math.ratioAt(Clamp(Search(w, s).tick));
      var target := Target(w, next);
      && w.math.ratioAt(MIN_TICK) <= next <= w.math.ratioAt(MAX_TICK)
      && LimitAhead(w, target)
      && if w.zeroForOne then next <= target <= s.sqrtPrice else s.sqrtPrice <= target <= next
  {
    hide Placing, Agree, Balanced, Active, NextInitialized;
    NothingSkipped(w, s);
    var t := Clamp(Search(w, s).tick);
    RatioWeaklyIncreasing(w.math, MIN_TICK, t);
    RatioWeaklyIncreasing(w.math, t, MAX_TICK);
    if w.zeroForOne {
      if s.tick >= MIN_TICK {
        RatioWeaklyIncreasing(w.math, t, s.tick);
      }
    } else if s.tick < MAX_TICK {
      RatioWeaklyIncreasing(w.math, s.tick + 1, t);
    }
  }

  /** A price strictly between lies in a tick with the same active liquidity. */
  lemma BetweenBoundaries(w: Walk, s: WalkState, v: nat)
    requires Sane(w) && Placed(w, s) && w.math.tickAt(v).Ok?
    requires
      var next := w.math.ratioAt(Clamp(Search(w, s).tick));
      if w.zeroForOne then next < v < s.sqrtPrice else s.sqrtPrice < v < next
    ensures
      var t := w.math.tickAt(v).value;
      Located(w.math, t, v) && Active(w.pool, t) == Active(w.pool, s.tick)
  {
    hide Lawful, StaysBetween, Agree, Balanced, Active, NextInitialized;
    NothingSkipped(w, s);
    TargetAhead(w, s);
    var t := w.math.tickAt(v).value;
    var n := Clamp(Search(w, s).tick);
    if w.zeroForOne {
      TicksOrdered(w.math, n, t + 1);
      if s.tick < MAX_TICK {
        TicksOrdered(w.math, t, s.tick + 1);
      }
      NothingBetween(w.pool, t, s.tick);
    } else {
      TicksOrdered(w.math, t, n);
      if s.tick >= MIN_TICK {
        TicksOrdered(w.math, s.tick, t + 1);
      }
      NothingBetween(w.pool, s.tick, t);
    }
  }

  lemma TicksOrdered(m: PriceMath, a: int, b: int)
    requires Lawful(m) && InTickRange(a) && InTickRange(b)
    ensures m.ratioAt(a) < m.ratioAt(b) ==> a < b
  {
    RatioWeaklyIncreasing(m, a, b);
  }

  /** Landing: tick and price of the boundary belong together on either side. */
  lemma LandedLocated(m: PriceMath, zeroForOne: bool, t: int)
    requires Lawful(m) && InTickRange(t)
    ensures Located(m, LandedTick(zeroForOne, t), m.ratioAt(t))
  {
    RatioWeaklyIncreasing(m, MIN_TICK, t);
    RatioWeaklyIncreasing(m, t, MAX_TICK);
    if t - 1 >= MIN_TICK {
      RatioWeaklyIncreasing(m, t - 1, t);
    }
    if t < MAX_TICK {
      RatioWeaklyIncreasing(m, t, t + 1);
    }
  }

  lemma LocatedBounds(m: PriceMath, tick: int, sqrt: nat)
    requires Located(m, tick, sqrt)
    ensures MIN_TICK - 1 <= tick <= MAX_TICK
  {
  }

  /** Every iteration keeps tick, price and active liquidity together, whether it crosses, lands or stops between. */
  lemma BodyKeepsPlaced(w: Walk, s: WalkState)
    requires Sane(w) && s.Valid() && Placed(w, s) && Body(w, s).Ok?
    ensures Placed(w, Body(w, s).value.after)
  {
    hide Lawful, Placing, Agree, Balanced, Active, NextInitialized, Located, SwapMath.ComputeSwapStep, CrossLiquidity;
    var r := Search(w, s);
    var t := Clamp(r.tick);
    var next := w.math.ratioAt(t);
    var target := Target(w, next);
    var it := Body(w, s).value;
    TargetAhead(w, s);
    StepBetween(w, s, target);
    LocatedBounds(w.math, s.tick, s.sqrtPrice);
    if it.landed {
      LandedLocated(w.math, w.zeroForOne, t);
      CrossedActive(w, s);
      if r.initialized {
        CrossingSucceeds(w, s);
      }
    } else if it.after.sqrtPrice != s.sqrtPrice {
      BetweenBoundaries(w, s, it.after.sqrtPrice);
    }
  }

  /** Over every run of the loop the liquidity is the active one of the current tick. */
  lemma {:induction false} RunKeepsPlaced(w: Walk, s: WalkState, n: nat, t: WalkState)
    requires Sane(w) && s.Valid() && Placed(w, s) && RunsTo(w, s, n, t)
    ensures Placed(w, t)
    decreases n
  {
    hide Body, Lawful, Placing, Agree, Balanced, Placed;
    if n > 0 {
      StepValid(w, s);
      BodyKeepsPlaced(w, s);
      RunKeepsPlaced(w, Body(w, s).value.after, n - 1, t);
    }
  }

  lemma StepValid(w: Walk, s: WalkState)
    requires Sane(w) && s.Valid() && Body(w, s).Ok?
    ensures Body(w, s).value.after.Valid()
  {
    StepKinds(w, s);
  }

  /** So a finished walk ends with the liquidity active at its last tick, the tick of its last price. */
  lemma OutcomePlaced(w: Walk, s: WalkState)
    requires Sane(w) && s.Valid() && Placed(w, s) && Halts(w, s) && Outcome(w, s).Ok?
    ensures Placed(w, Outcome(w, s).value)
  {
    hide Body, Lawful, Placing, Agree, Balanced, Placed, RunsTo;
    var n: nat, t :| EndsAt(w, s, n, t);
    OutcomeIs(w, s, n, t);
    RunKeepsPlaced(w, s, n, t);
  }
}
