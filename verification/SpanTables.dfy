/**
 The lookup tables of a chain: saturating prefix sums, the running maximum of the inputs and the
 tick index, as functions of the recorded steps, and the class that fills them in a loop.
 */
module SpanTables {
  import opened Wrappers
  import opened SwapMath
  import opened ReferenceWalk
  import opened SpanChains

  function SatAdd(a: nat, b: nat): nat {
    if a + b < TWO256 then a + b else TWO256 - 1
  }

  /** `prefix_a[i]`: the saturating sum of input plus fee over the first i steps. */
  function PrefixA(steps: seq<SpanStep>, i: nat): nat
    requires i <= |steps|
  {
    if i == 0 then 0 else SatAdd(PrefixA(steps, i - 1), SatAdd(steps[i - 1].amountIn, steps[i - 1].fee))
  }

  /** `prefix_out[i]`: the saturating sum of the outputs of the first i steps. */
  function PrefixOut(steps: seq<SpanStep>, i: nat): nat
    requires i <= |steps|
  {
    if i == 0 then 0 else SatAdd(PrefixOut(steps, i - 1), steps[i - 1].amountOut)
  }

  /** `envelope[i]`: the greatest input among steps 0 to i. */
  function Envelope(steps: seq<SpanStep>, i: nat): nat
    requires i < |steps|
  {
    var before := if i == 0 then 0 else Envelope(steps, i - 1);
    if steps[i].amountIn > before then steps[i].amountIn else before
  }

  /** One step of each table. */
  lemma TableStep(steps: seq<SpanStep>, i: nat)
    requires i < |steps|
    ensures PrefixA(steps, i + 1) == SatAdd(PrefixA(steps, i), SatAdd(steps[i].amountIn, steps[i].fee))
    ensures PrefixOut(steps, i + 1) == SatAdd(PrefixOut(steps, i), steps[i].amountOut)
    ensures var before := if i == 0 then 0 else Envelope(steps, i - 1);
            Envelope(steps, i) == if steps[i].amountIn > before then steps[i].amountIn else before
  {
  }

  lemma TableStart(steps: seq<SpanStep>)
    ensures PrefixA(steps, 0) == PrefixOut(steps, 0) == Cost(steps, 0, 0) == Gain(steps, 0, 0) == 0
  {
  }

  /** The exact cost of steps i to j - 1. */
  function Cost(steps: seq<SpanStep>, i: nat, j: nat): nat
    requires i <= j <= |steps|
    decreases j - i
  {
    if i == j then 0 else steps[i].amountIn + steps[i].fee + Cost(steps, i + 1, j)
  }

  /** The exact output of steps i to j - 1. */
  function Gain(steps: seq<SpanStep>, i: nat, j: nat): nat
    requires i <= j <= |steps|
    decreases j - i
  {
    if i == j then 0 else steps[i].amountOut + Gain(steps, i + 1, j)
  }

  lemma {:induction false} CostExtends(steps: seq<SpanStep>, i: nat, j: nat)
    requires i <= j < |steps|
    ensures Cost(steps, i, j + 1) == Cost(steps, i, j) + steps[j].amountIn + steps[j].fee
    ensures Gain(steps, i, j + 1) == Gain(steps, i, j) + steps[j].amountOut
    decreases j - i
  {
    if i < j {
      CostExtends(steps, i + 1, j);
    }
  }

  lemma {:induction false} CostSplits(steps: seq<SpanStep>, i: nat, j: nat)
    requires i <= j <= |steps|
    ensures Cost(steps, 0, j) == Cost(steps, 0, i) + Cost(steps, i, j)
    ensures Gain(steps, 0, j) == Gain(steps, 0, i) + Gain(steps, i, j)
    decreases j
  {
    if i < j {
      CostSplits(steps, i, j - 1);
      CostExtends(steps, i, j - 1);
      CostExtends(steps, 0, j - 1);
    }
  }

  const STEP_CEILING: nat := AMOUNT_CEILING * 1_000_001

  lemma {:induction false} CostBounded(m: PriceMath, key: RunKey, c: Chain, i: nat)
    requires Lawful(m) && Sound(m, key, c) && i <= |c.steps|
    ensures Cost(c.steps, 0, i) <= i * STEP_CEILING && Gain(c.steps, 0, i) <= i * STEP_CEILING
    decreases i
  {
    hide Lawful, Sound;
    if i > 0 {
      CostBounded(m, key, c, i - 1);
      ChainStepFacts(m, key, c, i - 1);
      CostExtends(c.steps, 0, i - 1);
    }
  }

  /** The tick range keeps every sum over a sound chain below 2^256. */
  lemma CostSmall(m: PriceMath, key: RunKey, c: Chain, i: nat)
    requires Lawful(m) && Sound(m, key, c) && i <= |c.steps|
    ensures Cost(c.steps, 0, i) < TWO256 && Gain(c.steps, 0, i) < TWO256
  {
    hide Lawful, Sound, Cost, Gain;
    ChainLength(m, key, c);
    CostBounded(m, key, c, i);
  }

  /** On a sound chain the prefix sums never saturate: they are the exact sums. */
  lemma {:induction false} PrefixesExact(m: PriceMath, key: RunKey, c: Chain, i: nat)
    requires Lawful(m) && Sound(m, key, c) && i <= |c.steps|
    ensures PrefixA(c.steps, i) == Cost(c.steps, 0, i) && PrefixOut(c.steps, i) == Gain(c.steps, 0, i)
    decreases i
  {
    hide Lawful, Sound, PrefixA, PrefixOut, Cost, Gain;
    if i > 0 {
      PrefixesExact(m, key, c, i - 1);
      CostSmall(m, key, c, i);
      CostExtends(c.steps, 0, i - 1);
      TableStep(c.steps, i - 1);
    } else {
      TableStart(c.steps);
    }
  }

  lemma {:induction false} EnvelopeCovers(steps: seq<SpanStep>, i: nat, j: nat)
    requires i <= j < |steps|
    ensures steps[i].amountIn <= Envelope(steps, i) <= Envelope(steps, j)
    decreases j
  {
    if i < j {
      EnvelopeCovers(steps, i, j - 1);
    }
  }

  /** The running maximum is attained: the envelope is one of the inputs seen so far. */
  lemma {:induction false} EnvelopeAttained(steps: seq<SpanStep>, j: nat) returns (i: nat)
    requires j < |steps|
    ensures i <= j && Envelope(steps, j) == steps[i].amountIn
    decreases j
  {
    if j == 0 || steps[j].amountIn > Envelope(steps, j - 1) {
      i := j;
    } else {
      i := EnvelopeAttained(steps, j - 1);
    }
  }

  lemma {:induction false} PrefixMonotone(steps: seq<SpanStep>, i: nat, j: nat)
    requires i <= j <= |steps|
    ensures PrefixA(steps, i) <= PrefixA(steps, j) && PrefixOut(steps, i) <= PrefixOut(steps, j)
    ensures PrefixA(steps, j) < TWO256 && PrefixOut(steps, j) < TWO256
    decreases j
  {
    if i < j {
      PrefixMonotone(steps, i, j - 1);
    } else if j > 0 {
      PrefixMonotone(steps, j - 1, j - 1);
    }
  }

  /** The first boundary of the chain that carries `tick`, looking from boundary i on. */
  function FirstBoundary(c: Chain, tick: int, i: nat): (r: Option<nat>)
    requires i <= |c.steps|
    ensures r.Some? ==> i <= r.value <= |c.steps| && c.TickAt(r.value) == tick
    ensures forall j: nat :: i <= j <= |c.steps| && c.TickAt(j) == tick ==> r.Some? && r.value <= j
    decreases |c.steps| - i
  {
    if c.TickAt(i) == tick then Some(i)
    else if i == |c.steps| then None
    else FirstBoundary(c, tick, i + 1)
  }

  /** The tick index maps exactly the boundary ticks, each to its first boundary up to `n`. */
  ghost predicate Indexes(index: map<int, nat>, c: Chain, n: nat)
    requires n <= |c.steps|
  {
    && (forall i: nat :: i <= n ==> c.TickAt(i) in index && index[c.TickAt(i)] <= i)
    && (forall t :: t in index ==> index[t] <= n && c.TickAt(index[t]) == t)
  }

  lemma IndexStarts(c: Chain)
    ensures Indexes(map[c.firstTick := 0], c, 0)
  {
  }

  lemma IndexExtends(index: map<int, nat>, c: Chain, n: nat)
    requires n < |c.steps| && Indexes(index, c, n)
    ensures var t := c.TickAt(n + 1); Indexes(if t in index then index else index[t := n + 1], c, n + 1)
  {
  }

  lemma IndexIsFirst(index: map<int, nat>, c: Chain, tick: int)
    requires Indexes(index, c, |c.steps|)
    ensures tick in index <==> FirstBoundary(c, tick, 0).Some?
    ensures tick in index ==> FirstBoundary(c, tick, 0) == Some(index[tick])
  {
  }

  /** The index always holds the tick at which the chain ends. */
  lemma EndIsIndexed(index: map<int, nat>, c: Chain)
    requires Indexes(index, c, |c.steps|) && c.steps != []
    ensures c.steps[|c.steps| - 1].endTick in index
  {
    assert c.TickAt(|c.steps|) == c.steps[|c.steps| - 1].endTick;
  }

  /** On a sound chain the tick of a boundary names that boundary and no other. */
  lemma IndexUnique(m: PriceMath, key: RunKey, c: Chain, i: nat)
    requires Lawful(m) && Sound(m, key, c) && i <= |c.steps|
    ensures FirstBoundary(c, c.TickAt(i), 0) == Some(i)
  {
    hide Lawful, Sound;
    var f := FirstBoundary(c, c.TickAt(i), 0).value;
    if f < i {
      ChainMonotone(m, key, c, f, i);
    }
  }

  class SpanChain {
    ghost const key: RunKey
    const bitmap: Arc
    const firstTick: int
    const firstSqrt: nat
    const feeDenom: nat
    var steps: seq<SpanStep>
    var prefixA: seq<nat>
    var prefixOut: seq<nat>
    var envelope: seq<nat>
    var index: map<int, nat>

    function View(): Chain
      reads this
    {
      Chain(bitmap, firstTick, firstSqrt, steps)
    }

    /** The tables hold what their functions say of the steps. */
    ghost predicate Valid()
      reads this
    {
      && steps != []
      && |prefixA| == |steps| + 1 && (forall i :: 0 <= i <= |steps| ==> prefixA[i] == PrefixA(steps, i))
      && |prefixOut| == |steps| + 1 && (forall i :: 0 <= i <= |steps| ==> prefixOut[i] == PrefixOut(steps, i))
      && |envelope| == |steps| && (forall i :: 0 <= i < |steps| ==> envelope[i] == Envelope(steps, i))
      && Indexes(index, View(), |steps|)
    }

    constructor (key: RunKey, bitmap: Arc, firstTick: int, firstSqrt: nat, steps: seq<SpanStep>)
      requires steps != [] && key.feePips < FEE_SCALE
      ensures Valid() && View() == Chain(bitmap, firstTick, firstSqrt, steps)
      ensures this.key == key && feeDenom == FEE_SCALE - key.feePips
    {
      this.key := key;
      this.bitmap := bitmap;
      this.firstTick := firstTick;
      this.firstSqrt := firstSqrt;
      this.feeDenom := FEE_SCALE - key.feePips;
      this.steps := steps;
      prefixA, prefixOut, envelope, index := [], [], [], map[];
      new;
      Rebuild();
    }

    /** Fills all four tables from the steps in one pass. */
    method Rebuild()
      requires steps != []
      modifies this
      ensures Valid() && steps == old(steps)
    {
      hide PrefixA, PrefixOut, Envelope, Indexes;
      ghost var c := View();
      TableStart(c.steps);
      IndexStarts(c);
      var accA, accOut, env := 0, 0, 0;
      prefixA, prefixOut, envelope := [0], [0], [];
      index := map[firstTick := 0];
      var i := 0;
      while i < |steps|
        invariant 0 <= i <= |steps| && View() == c
        invariant |prefixA| == i + 1 && accA == prefixA[i]
        invariant forall k :: 0 <= k <= i ==> prefixA[k] == PrefixA(c.steps, k)
        invariant |prefixOut| == i + 1 && accOut == prefixOut[i]
        invariant forall k :: 0 <= k <= i ==> prefixOut[k] == PrefixOut(c.steps, k)
        invariant |envelope| == i && env == if i == 0 then 0 else Envelope(c.steps, i - 1)
        invariant forall k :: 0 <= k < i ==> envelope[k] == Envelope(c.steps, k)
        invariant Indexes(index, c, i)
      {
        var s := steps[i];
        accA := SatAdd(accA, SatAdd(s.amountIn, s.fee));
        accOut := SatAdd(accOut, s.amountOut);
        prefixA := prefixA + [accA];
        prefixOut := prefixOut + [accOut];
        TableStep(c.steps, i);
        if s.amountIn > env {
          env := s.amountIn;
        }
        envelope := envelope + [env];
        IndexExtends(index, c, i);
        if s.endTick !in index {
          index := index[s.endTick := i + 1];
        }
        i := i + 1;
      }
    }

    /** Appends steps at the end and rebuilds. */
    method Extend(more: seq<SpanStep>)
      requires Valid()
      modifies this
      ensures Valid() && steps == old(steps) + more
    {
      steps := steps + more;
      Rebuild();
    }
  }

  /** `SpanChain::build`: nothing is built from no steps, nor at a full fee. */
  method Build(key: RunKey, bitmap: Arc, firstTick: int, firstSqrt: nat, steps: seq<SpanStep>)
    returns (chain: SpanChain?)
    ensures chain == null <==> steps == [] || key.feePips >= FEE_SCALE
    ensures chain != null ==>
              fresh(chain) && chain.Valid() && chain.View() == Chain(bitmap, firstTick, firstSqrt, steps)
    ensures chain != null ==> chain.key == key && chain.feeDenom == FEE_SCALE - key.feePips
  {
    if steps == [] {
      return null;
    }
    if key.feePips >= FEE_SCALE {
      return null;
    }
    chain := new SpanChain(key, bitmap, firstTick, firstSqrt, steps);
  }
}
