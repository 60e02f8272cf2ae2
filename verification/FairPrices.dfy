/**
 What a walk pays out: never more than its input is worth at the price it started from, over every
 run, although every step is rounded and charged on its own.
 */
module FairPrices {
  import opened Wrappers
  import opened SwapMath
  import opened ReferenceWalk
  import opened ActiveLiquidity
  import opened Q96Math

  /**
   No interval trades better than at the geometric mean of its prices, of which 2^192 stands for one;
   no interval, no output.
   */
  ghost predicate Fair(m: PriceMath) {
    && (forall down, c: nat, L: nat :: m.amountOut(down, c, c, L).Ok? ==> m.amountOut(down, c, c, L).value == 0)
    && forall down, c: nat, t: nat, L: nat {:trigger m.amountIn(down, c, t, L), m.amountOut(down, c, t, L)} ::
         m.amountIn(down, c, t, L).Ok? && m.amountOut(down, c, t, L).Ok? ==>
           NoBetter(down, c * t, m.amountIn(down, c, t, L).value, m.amountOut(down, c, t, L).value)
  }

  /** The output is worth at most the input, at the square of a square-root price. */
  predicate NoBetter(zeroForOne: bool, square: nat, input: nat, output: nat) {
    if zeroForOne then output * Q192 <= input * square else output * square <= input * Q192
  }

  lemma LibraryIsFair(ratioAt: int -> nat, tickAt: nat -> Result<int>)
    ensures Fair(Library(ratioAt, tickAt))
  {
    hide Amount0Up, Amount0Down, Amount1Up, Amount1Down;
    var m := Library(ratioAt, tickAt);
    forall down, c: nat, L: nat | m.amountOut(down, c, c, L).Ok? ensures m.amountOut(down, c, c, L).value == 0 {
      LibraryStandsStill(ratioAt, tickAt, c, if L == 0 then 1 else L);
      NoOutput(c, L);
    }
    forall down, c: nat, t: nat, L: nat {:trigger m.amountIn(down, c, t, L), m.amountOut(down, c, t, L)}
      | m.amountIn(down, c, t, L).Ok? && m.amountOut(down, c, t, L).Ok?
      ensures NoBetter(down, c * t, m.amountIn(down, c, t, L).value, m.amountOut(down, c, t, L).value)
    {
      IntervalIsFair(Lo(c, t), Hi(c, t), L);
      Commute(c, t);
    }
  }

  lemma NoOutput(c: nat, liquidity: nat)
    requires c >= 1
    ensures Amount0Down(c, c, liquidity) == 0 && Amount1Down(c, c, liquidity) == 0
  {
    NoDistance(c, liquidity);
    NothingOver(c);
    NothingOver(Q96);
  }

  /** Further on in its direction every price is worse. */
  lemma WorseFurther(zeroForOne: bool, square: nat, other: nat, input: nat, output: nat)
    requires NoBetter(zeroForOne, square, input, output)
    requires if zeroForOne then square <= other else other <= square
    ensures NoBetter(zeroForOne, other, input, output)
  {
    if zeroForOne {
      MulMonotone(input, square, other);
    } else {
      MulMonotone(output, other, square);
    }
  }

  lemma TogetherNoBetter(zeroForOne: bool, square: nat, in1: nat, out1: nat, in2: nat, out2: nat)
    requires NoBetter(zeroForOne, square, in1, out1) && NoBetter(zeroForOne, square, in2, out2)
    ensures NoBetter(zeroForOne, square, in1 + in2, out1 + out2)
  {
    assert (in1 + in2) * square == in1 * square + in2 * square;
    assert (out1 + out2) * square == out1 * square + out2 * square;
  }

  lemma MoreInput(zeroForOne: bool, square: nat, input: nat, more: nat, output: nat)
    requires NoBetter(zeroForOne, square, input, output) && input <= more
    ensures NoBetter(zeroForOne, square, more, output)
  {
    MulMonotone(square, input, more);
    MulMonotone(Q192, input, more);
    assert input * square <= more * square;
  }

  lemma Squares(a: nat, b: nat)
    requires a <= b
    ensures a * a <= a * b <= b * b
  {
    MulMonotone(a, a, b);
    MulMonotone(b, a, b);
  }

  /** Neither kind of step, limited by its target or by its input, trades better than at its first price. */
  lemma AmountsFair(w: Walk, s: WalkState, target: nat)
    requires Sane(w) && Fair(w.math) && s.Valid() && Amounts(w, s, target).Ok?
    requires if w.zeroForOne then target <= s.sqrtPrice else s.sqrtPrice <= target
    ensures
      var a := Amounts(w, s, target).value;
      && (if w.zeroForOne then a.next <= s.sqrtPrice else s.sqrtPrice <= a.next)
      && a.amountIn + a.fee <= s.remaining
      && NoBetter(w.zeroForOne, s.sqrtPrice * s.sqrtPrice, a.amountIn, a.amountOut)
  {
    hide Agree, Balanced, Placing, NoBetter, SwapMath.ComputeSwapStep;
    var a := Amounts(w, s, target).value;
    var c := s.sqrtPrice;
    StepBetween(w, s, target);
    if s.liquidity == 0 || target == c {
      if s.liquidity > 0 {
        StepAccount(w.math, c, target, s.liquidity, s.remaining, w.pool.fee);
      }
      NoOutputNoBetter(w.zeroForOne, c * c, a.amountIn);
    } else {
      StepAccount(w.math, c, target, s.liquidity, s.remaining, w.pool.fee);
      if w.zeroForOne {
        Squares(a.next, c);
      } else {
        Squares(c, a.next);
      }
      WorseFurther(w.zeroForOne, c * a.next, c * c, a.amountIn, a.amountOut);
    }
  }

  lemma NoOutputNoBetter(zeroForOne: bool, square: nat, input: nat)
    ensures NoBetter(zeroForOne, square, input, 0)
  {
    MulMonotone(input, 0, square);
  }

  lemma BodyFair(w: Walk, s: WalkState)
    requires Sane(w) && Fair(w.math) && s.Valid() && Placed(w, s) && Body(w, s).Ok?
    ensures
      var t := Body(w, s).value.after;
      && (if w.zeroForOne then t.sqrtPrice <= s.sqrtPrice else s.sqrtPrice <= t.sqrtPrice)
      && t.remaining <= s.remaining && s.amountOut <= t.amountOut
      && NoBetter(w.zeroForOne, s.sqrtPrice * s.sqrtPrice, s.remaining - t.remaining, t.amountOut - s.amountOut)
  {
    hide Lawful, Agree, Balanced, Placing, Fair, NoBetter, Amounts, Placed, CrossLiquidity;
    var target := Target(w, w.math.ratioAt(Clamp(Search(w, s).tick)));
    var a := Amounts(w, s, target).value;
    TargetAhead(w, s);
    AmountsFair(w, s, target);
    SpendExact(s.remaining, a.amountIn, a.fee);
    MoreInput(w.zeroForOne, s.sqrtPrice * s.sqrtPrice, a.amountIn, a.amountIn + a.fee, a.amountOut);
  }

  /** Over every run the price only moves ahead, and the output is worth at most the input at the first price. */
  lemma {:induction false} NeverBetterThanStart(w: Walk, s: WalkState, n: nat, t: WalkState)
    requires Sane(w) && Fair(w.math) && s.Valid() && Placed(w, s) && RunsTo(w, s, n, t)
    ensures if w.zeroForOne then t.sqrtPrice <= s.sqrtPrice else s.sqrtPrice <= t.sqrtPrice
    ensures t.remaining <= s.remaining && s.amountOut <= t.amountOut
    ensures NoBetter(w.zeroForOne, s.sqrtPrice * s.sqrtPrice, s.remaining - t.remaining, t.amountOut - s.amountOut)
    decreases n
  {
    hide Lawful, Agree, Balanced, Placing, Fair, NoBetter, Body, Placed;
    var square := s.sqrtPrice * s.sqrtPrice;
    if n == 0 {
      NoOutputNoBetter(w.zeroForOne, square, 0);
    } else {
      var u := Body(w, s).value.after;
      BodyFair(w, s);
      StepValid(w, s);
      BodyKeepsPlaced(w, s);
      NeverBetterThanStart(w, u, n - 1, t);
      if w.zeroForOne {
        Squares(u.sqrtPrice, s.sqrtPrice);
      } else {
        Squares(s.sqrtPrice, u.sqrtPrice);
      }
      WorseFurther(w.zeroForOne, u.sqrtPrice * u.sqrtPrice, square,
                   u.remaining - t.remaining, t.amountOut - u.amountOut);
      TogetherNoBetter(w.zeroForOne, square, s.remaining - u.remaining, u.amountOut - s.amountOut,
                       u.remaining - t.remaining, t.amountOut - u.amountOut);
    }
  }
}
