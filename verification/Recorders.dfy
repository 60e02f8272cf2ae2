/**
 The recorder that watches a walk and publishes runs of chainable steps: its state transitions on
 values, why what it publishes has no holes, and the class that does it in place.
 */
module Recorders {
  import opened Wrappers
  import opened SwapMath
  import opened ReferenceWalk
  import opened SpanChains
  import opened SpanTables
  import opened SpanCaches
  import opened SpanJump
  import opened TickBitmap

  const MIN_CHAIN_STEPS: nat := 6
  const MAX_CHAIN_STEPS: nat := 8192

  datatype RecView = RecView(key: Option<RunKey>, firstTick: int, firstSqrt: nat, steps: seq<SpanStep>,
                             atBoundary: bool, active: bool, recording: bool)

  /** The chain a recorder holds, under the bitmap it is published with. */
  function Held(r: RecView, bitmap: Arc): Chain {
    Chain(bitmap, r.firstTick, r.firstSqrt, r.steps)
  }

  /** Whether publishing hands a chain to the cache: long enough, keyed, and not at a full fee. */
  predicate Publishable(r: RecView) {
    r.key.Some? && |r.steps| >= MIN_CHAIN_STEPS && r.key.value.feePips < FEE_SCALE
  }

  /** The recorder after publishing: always empty, and no longer at a boundary if it had a key. */
  function Emptied(r: RecView): RecView {
    r.(key := None, steps := [], atBoundary := r.key.None? && r.atBoundary)
  }

  /** The cache after publishing. */
  ghost function PublishInto(v: CacheView, shardOf: RunKey -> nat, r: RecView, bitmap: Arc): CacheView
    requires r.key.Some? ==> shardOf(r.key.value) < |v.shards|
  {
    if Publishable(r) then Insert(v, shardOf(r.key.value), r.key.value, Held(r, bitmap)) else v
  }

  /** Whether an observed step breaks the run being recorded. */
  predicate Breaks(r: RecView, chainable: bool) {
    r.recording && !(chainable && r.atBoundary) && r.steps != []
  }

  /** The recorder after observing one loop iteration. */
  function Observed(r: RecView, key: RunKey, startTick: int, startSqrt: nat, step: SpanStep,
                    chainable: bool, landed: bool): RecView {
    if !r.recording then r
    else if chainable && r.atBoundary then
      var r := if r.steps == [] then r.(key := Some(key), firstTick := startTick, firstSqrt := startSqrt) else r;
      r.(steps := if |r.steps| < MAX_CHAIN_STEPS then r.steps + [step] else r.steps, atBoundary := landed)
    else
      (if r.steps != [] then Emptied(r) else r).(atBoundary := chainable && landed)
  }

  /** The recorder after a jump or at the end of a walk. */
  function Flushed(r: RecView): RecView {
    if r.active && r.steps != [] then Emptied(r) else r
  }

  // ---- No holes ----

  /**
   What a recorder holds while a walk is in state s: either nothing, or a sound chain that ends in
   s (or was cut at the maximum length).
   */
  ghost predicate Tracks(w: Walk, r: RecView, s: WalkState)
    requires w.pool.Valid()
  {
    && r.active == r.recording
    && (r.recording && r.atBoundary ==> Arrival(w.math, w.zeroForOne, s.tick, s.sqrtPrice))
    && (r.steps != [] ==>
          && r.key.Some? && Sound(w.math, r.key.value, Held(r, w.pool.arc)) && |r.steps| <= MAX_CHAIN_STEPS
          && r.recording && r.atBoundary
          && (|r.steps| < MAX_CHAIN_STEPS ==>
                && r.key.value == KeyOf(w, s.liquidity)
                && Held(r, w.pool.arc).TickAt(|r.steps|) == s.tick
                && Held(r, w.pool.arc).SqrtAt(|r.steps|) == s.sqrtPrice))
  }

  /** A chainable iteration is the word step of the current key, and lands in an arrival state. */
  lemma ChainableIsWordStep(w: Walk, s: WalkState)
    requires w.Valid() && s.Valid() && Body(w, s).Ok? && Body(w, s).value.chainable
    ensures
      var it := Body(w, s).value;
      var key := KeyOf(w, s.liquidity);
      && it.landed && it.after.liquidity == s.liquidity && key.Valid()
      && WordStep(w.math, key, w.pool.arc.words, s.tick, s.sqrtPrice) == Some(it.step)
      && it.step.endTick == it.after.tick && it.step.endSqrt == it.after.sqrtPrice
      && Arrival(w.math, w.zeroForOne, it.after.tick, it.after.sqrtPrice)
  {
    var sqrtNext := w.math.ratioAt(Clamp(Search(w, s).tick));
    assert Amounts(w, s, sqrtNext).value.next == sqrtNext;
    if s.liquidity > 0 {
      ReachingIsFull(w.math, s.sqrtPrice, sqrtNext, s.liquidity, s.remaining, w.pool.fee);
    }
  }

  /** A swap step that ends on its target has the constants of the full step. */
  lemma ReachingIsFull(m: PriceMath, current: nat, target: nat, liquidity: nat, remaining: nat, fee: nat)
    requires fee <= FEE_SCALE
    requires ComputeSwapStep(m, current, target, liquidity, remaining, fee).Ok?
    requires ComputeSwapStep(m, current, target, liquidity, remaining, fee).value.next == target
    ensures fee < FEE_SCALE
    ensures ComputeSwapStep(m, current, target, liquidity, remaining, fee)
            == FullStep(m, current, target, liquidity, fee)
  {
  }

  /**
   An iteration is chainable exactly if there is a word step of the current key that can be paid for,
   fee included, and that stays within the price limit.
   */
  lemma ChainableExactly(w: Walk, s: WalkState)
    requires w.Valid() && s.Valid() && Body(w, s).Ok?
    ensures
      var step := WordStep(w.math, KeyOf(w, s.liquidity), w.pool.arc.words, s.tick, s.sqrtPrice);
      Body(w, s).value.chainable <==>
        && (w.needsLiquidity ==> s.liquidity >= 1)
        && step.Some? && step.value.amountIn + step.value.fee <= s.remaining
        && (if w.zeroForOne then w.limit <= step.value.endSqrt else step.value.endSqrt <= w.limit)
  {
    hide Lawful, NextInitialized, ComputeSwapStep, FullStep;
    var key := KeyOf(w, s.liquidity);
    var sqrtNext := w.math.ratioAt(Clamp(Search(w, s).tick));
    var step := WordStep(w.math, key, w.pool.arc.words, s.tick, s.sqrtPrice);
    if Body(w, s).value.chainable {
      ChainableIsWordStep(w, s);
      AmountsKinds(w, s, sqrtNext);
    }
    if step.Some? {
      AffordsFee(w.math, key, w.pool.arc.words, s.tick, s.sqrtPrice, s.remaining);
      WordStepEnds(w.math, key, w.pool.arc.words, s.tick, s.sqrtPrice);
      if Affords(s.remaining, step.value, key.feePips) {
        WordStepAmounts(w, key, s);
      }
    }
  }

  lemma WordStepEnds(m: PriceMath, key: RunKey, words: Bitmap, tick: int, sqrt: nat)
    requires key.Valid() && WordStep(m, key, words, tick, sqrt).Some?
    ensures
      var next := NextInitialized(words, tick, key.tickSpacing, key.zeroForOne);
      && !next.initialized && InTickRange(next.tick)
      && WordStep(m, key, words, tick, sqrt).value.endSqrt == m.ratioAt(next.tick)
  {
  }

  /** Observing an iteration keeps the recorder in step with the walk. */
  lemma ObserveTracks(w: Walk, r: RecView, s: WalkState)
    requires w.Valid() && s.Valid() && Tracks(w, r, s) && Body(w, s).Ok?
    ensures
      var it := Body(w, s).value;
      var key := KeyOf(w, it.after.liquidity);
      Tracks(w, Observed(r, key, s.tick, s.sqrtPrice, it.step, it.chainable, it.landed), it.after)
  {
    hide Lawful, Body, WordStep, Follows, Arrival;
    var it := Body(w, s).value;
    var key := KeyOf(w, it.after.liquidity);
    var u := Observed(r, key, s.tick, s.sqrtPrice, it.step, it.chainable, it.landed);
    if it.chainable {
      ChainableIsWordStep(w, s);
      if r.recording && r.atBoundary && |r.steps| < MAX_CHAIN_STEPS {
        var c := if r.steps == [] then Chain(w.pool.arc, s.tick, s.sqrtPrice, []) else Held(r, w.pool.arc);
        assert Sound(w.math, key, c);
        AppendSound(w.math, key, c, it.step);
        assert Held(u, w.pool.arc) == c.(steps := c.steps + [it.step]);
      }
    }
    assert u.active == u.recording;
    assert u.recording && u.atBoundary ==> Arrival(w.math, w.zeroForOne, it.after.tick, it.after.sqrtPrice);
    assert u.steps != [] ==> u.key.Some? && Sound(w.math, u.key.value, Held(u, w.pool.arc));
  }

  /** After a jump to an arrival state a fresh run may start there. */
  lemma FlushTracks(w: Walk, r: RecView, s: WalkState, t: WalkState, atBoundary: bool)
    requires w.pool.Valid() && Tracks(w, r, s)
    requires atBoundary ==> Arrival(w.math, w.zeroForOne, t.tick, t.sqrtPrice)
    ensures Tracks(w, Flushed(r).(atBoundary := atBoundary), t)
  {
  }

  /** What happens to a walk between two publications. */
  datatype Event = Step | Jump(to: WalkState)

  /** The events are possible: bodies succeed, and jumps land in arrival states. */
  ghost predicate Possible(w: Walk, s: WalkState, events: seq<Event>)
    requires w.pool.Valid()
    decreases |events|
  {
    events == [] ||
    match events[0]
    case Step => Body(w, s).Ok? && Possible(w, Body(w, s).value.after, events[1..])
    case Jump(t) => t.Valid() && Arrival(w.math, w.zeroForOne, t.tick, t.sqrtPrice) && Possible(w, t, events[1..])
  }

  datatype Publication = Publication(key: RunKey, chain: Chain)

  function Publish(r: RecView, bitmap: Arc): seq<Publication> {
    if Publishable(r) then [Publication(r.key.value, Held(r, bitmap))] else []
  }

  /** Everything a recorder publishes along the events, the final `finish` included. */
  ghost function Published(w: Walk, r: RecView, s: WalkState, events: seq<Event>): seq<Publication>
    requires w.pool.Valid() && Possible(w, s, events)
    decreases |events|
  {
    if events == [] then (if r.active && r.steps != [] then Publish(r, w.pool.arc) else [])
    else
      match events[0]
      case Step =>
        var it := Body(w, s).value;
        var r' := Observed(r, KeyOf(w, it.after.liquidity), s.tick, s.sqrtPrice, it.step, it.chainable, it.landed);
        (if Breaks(r, it.chainable) then Publish(r, w.pool.arc) else []) + Published(w, r', it.after, events[1..])
      case Jump(t) =>
        (if r.active && r.steps != [] then Publish(r, w.pool.arc) else [])
        + Published(w, Flushed(r).(atBoundary := true), t, events[1..])
  }

  /** Over every sequence of iterations and jumps, each published chain is a sound run without holes. */
  lemma {:induction false} NoHoles(w: Walk, r: RecView, s: WalkState, events: seq<Event>, p: Publication)
    requires w.Valid() && s.Valid() && Tracks(w, r, s) && Possible(w, s, events)
    requires p in Published(w, r, s, events)
    ensures Sound(w.math, p.key, p.chain) && p.chain.bitmap == w.pool.arc
    ensures MIN_CHAIN_STEPS <= |p.chain.steps| <= MAX_CHAIN_STEPS
    decreases |events|
  {
    hide Lawful, Body, Sound, Observed;
    if p in Publish(r, w.pool.arc) {
    } else {
      match events[0]
      case Step =>
        StepKinds(w, s);
        ObserveTracks(w, r, s);
        var it := Body(w, s).value;
        var key := KeyOf(w, it.after.liquidity);
        var r' := Observed(r, key, s.tick, s.sqrtPrice, it.step, it.chainable, it.landed);
        NoHoles(w, r', it.after, events[1..], p);
      case Jump(t) =>
        FlushTracks(w, r, s, t, true);
        NoHoles(w, Flushed(r).(atBoundary := true), t, events[1..], p);
    }
  }

  // ---- Nothing is missed ----

  /** The state before iteration i of a trace that begins in s. */
  function StateAt(s: WalkState, its: seq<Iteration>, i: nat): WalkState
    requires i <= |its|
  {
    if i == 0 then s else its[i - 1].after
  }

  /** From s the loop goes on over these iterations, all of them chainable. */
  ghost predicate ChainableRun(w: Walk, s: WalkState, its: seq<Iteration>)
    requires w.pool.Valid()
  {
    forall i {:trigger its[i]} :: 0 <= i < |its| ==>
      !Done(w, StateAt(s, its, i)) && Body(w, StateAt(s, its, i)) == Ok(its[i]) && its[i].chainable
  }

  function StepsOf(its: seq<Iteration>): seq<SpanStep> {
    seq(|its|, i requires 0 <= i < |its| => its[i].step)
  }

  function EndOf(s: WalkState, its: seq<Iteration>): WalkState {
    StateAt(s, its, |its|)
  }

  /** The first iteration of a run, and the rest. */
  lemma RunTail(w: Walk, s: WalkState, its: seq<Iteration>)
    requires w.pool.Valid() && ChainableRun(w, s, its) && its != []
    ensures !Done(w, s) && Body(w, s) == Ok(its[0]) && its[0].chainable
    ensures ChainableRun(w, its[0].after, its[1..]) && EndOf(s, its) == EndOf(its[0].after, its[1..])
    ensures StepsOf(its) == [its[0].step] + StepsOf(its[1..])
  {
    hide Body, Done;
    var first := its[0];
    assert Body(w, StateAt(s, its, 0)) == Ok(first);
    forall i | 0 <= i < |its[1..]|
      ensures
        var t := StateAt(its[0].after, its[1..], i);
        !Done(w, t) && Body(w, t) == Ok(its[1..][i]) && its[1..][i].chainable
    {
      assert its[1..][i] == its[i + 1];
    }
  }

  /** A recording is cut at the maximum length. */
  function Cut(steps: seq<SpanStep>): seq<SpanStep> {
    if |steps| <= 8192 then steps else steps[..8192]
  }

  /** Chainable iterations from an arrival state are recorded, every one up to the maximum. */
  lemma ObservedChainable(w: Walk, r: RecView, s: WalkState)
    requires w.Valid() && s.Valid() && Tracks(w, r, s) && r.recording && r.atBoundary
    requires Body(w, s).Ok? && Body(w, s).value.chainable
    ensures
      var it := Body(w, s).value;
      var key := KeyOf(w, it.after.liquidity);
      var r' := Observed(r, key, s.tick, s.sqrtPrice, it.step, it.chainable, it.landed);
      && !Breaks(r, it.chainable) && it.after.liquidity == s.liquidity
      && r' == if r.steps == []
               then RecView(Some(KeyOf(w, s.liquidity)), s.tick, s.sqrtPrice, [it.step], true, r.active, true)
               else r.(steps := Cut(r.steps + [it.step]), atBoundary := true)
  {
    hide Lawful, Body, Sound, Arrival;
    ChainableIsWordStep(w, s);
    if |r.steps| >= MAX_CHAIN_STEPS {
      assert (r.steps + [Body(w, s).value.step])[..8192] == r.steps;
    }
  }

  /** The recorder after one chainable iteration from an arrival state. */
  ghost function Lengthened(w: Walk, r: RecView, s: WalkState): RecView
    requires w.pool.Valid() && Body(w, s).Ok?
  {
    var step := Body(w, s).value.step;
    if r.steps == [] then RecView(Some(KeyOf(w, s.liquidity)), s.tick, s.sqrtPrice, [step], true, r.active, true)
    else r.(steps := Cut(r.steps + [step]), atBoundary := true)
  }

  lemma StepPublishes(w: Walk, r: RecView, s: WalkState, events: seq<Event>)
    requires w.Valid() && s.Valid() && Tracks(w, r, s) && r.recording && r.atBoundary
    requires events != [] && events[0].Step? && Possible(w, s, events) && Body(w, s).Ok? && Body(w, s).value.chainable
    ensures
      var t := Body(w, s).value.after;
      && t.Valid() && Possible(w, t, events[1..]) && Tracks(w, Lengthened(w, r, s), t)
      && Published(w, r, s, events) == Published(w, Lengthened(w, r, s), t, events[1..])
  {
    hide Lawful, Body, Sound, Arrival, Observed, Cut;
    StepKinds(w, s);
    ObserveTracks(w, r, s);
    ObservedChainable(w, r, s);
  }

  /** The recorder in the middle of a run: what it will hold at the end of it. */
  lemma {:induction false} RecordsRun(w: Walk, r: RecView, s: WalkState, its: seq<Iteration>, events: seq<Event>)
    requires w.Valid() && s.Valid() && Tracks(w, r, s) && r.recording && r.atBoundary && r.steps != []
    requires |its| <= |events| && Possible(w, s, events) && ChainableRun(w, s, its)
    requires forall i :: 0 <= i < |its| ==> events[i].Step?
    ensures Possible(w, EndOf(s, its), events[|its|..])
    ensures Published(w, r, s, events) ==
              Published(w, r.(steps := Cut(r.steps + StepsOf(its))), EndOf(s, its), events[|its|..])
    decreases |its|
  {
    hide Lawful, Body, Published, ChainableRun, StepsOf, Cut;
    if its == [] {
      assert events[0..] == events;
      NoSteps(r);
    } else {
      RunTail(w, s, its);
      StepPublishes(w, r, s, events);
      CutLength(r.steps + [its[0].step]);
      RecordsRun(w, Lengthened(w, r, s), its[0].after, its[1..], events[1..]);
      assert events[1..][|its| - 1..] == events[|its|..];
      CutTwice(r.steps, its[0].step, StepsOf(its[1..]));
    }
  }

  /** A recorder that tracks a walk holds no more than the maximum. */
  lemma NoSteps(r: RecView)
    ensures |r.steps| <= 8192 ==> r.(steps := Cut(r.steps + StepsOf([]))) == r
  {
    assert r.steps + StepsOf([]) == r.steps;
  }

  lemma CutTwice(a: seq<SpanStep>, step: SpanStep, b: seq<SpanStep>)
    ensures Cut(Cut(a + [step]) + b) == Cut(a + ([step] + b))
  {
    assert (a + [step]) + b == a + ([step] + b);
    if |a| + 1 > 8192 {
      assert ((a + [step])[..8192] + b)[..8192] == (a + ([step] + b))[..8192];
    }
  }

  /** The run is over: the events end, or a jump or an iteration that is not chainable follows. */
  ghost predicate RunOver(w: Walk, s: WalkState, events: seq<Event>)
    requires w.pool.Valid() && Possible(w, s, events)
  {
    events == [] || events[0].Jump? || !Body(w, s).value.chainable
  }

  /**
   Nothing is missed: a whole run of at least six chainable iterations that begins in an arrival state
   with nothing recorded is published, complete up to the maximum, under the key and from the state in
   which it began, before anything that follows it.
   */
  lemma WholeRunPublished(w: Walk, r: RecView, s: WalkState, its: seq<Iteration>, events: seq<Event>)
    requires w.Valid() && s.Valid() && Tracks(w, r, s) && r.recording && r.atBoundary && r.steps == []
    requires 6 <= |its| <= |events| && Possible(w, s, events) && ChainableRun(w, s, its) && w.pool.fee < FEE_SCALE
    requires forall i :: 0 <= i < |its| ==> events[i].Step?
    requires Possible(w, EndOf(s, its), events[|its|..]) && RunOver(w, EndOf(s, its), events[|its|..])
    ensures
      var p := Published(w, r, s, events);
      p != [] && p[0] == Publication(KeyOf(w, s.liquidity),
                                     Chain(w.pool.arc, s.tick, s.sqrtPrice, Cut(StepsOf(its))))
  {
    hide Lawful, Body, Published, Cut, Tracks, ChainableRun, Possible, RunOver;
    WholeRunHeld(w, r, s, its, events);
    CutLength(StepsOf(its));
    EndsPublished(w, HeldRun(w, s, its), EndOf(s, its), events[|its|..]);
  }

  /** What a recorder holds at the end of a run that began in state s. */
  function HeldRun(w: Walk, s: WalkState, its: seq<Iteration>): RecView {
    RecView(Some(KeyOf(w, s.liquidity)), s.tick, s.sqrtPrice, Cut(StepsOf(its)), true, true, true)
  }

  lemma WholeRunHeld(w: Walk, r: RecView, s: WalkState, its: seq<Iteration>, events: seq<Event>)
    requires w.Valid() && s.Valid() && Tracks(w, r, s) && r.recording && r.atBoundary && r.steps == []
    requires 1 <= |its| <= |events| && Possible(w, s, events) && ChainableRun(w, s, its)
    requires forall i :: 0 <= i < |its| ==> events[i].Step?
    ensures Possible(w, EndOf(s, its), events[|its|..])
    ensures Published(w, r, s, events) == Published(w, HeldRun(w, s, its), EndOf(s, its), events[|its|..])
  {
    hide Lawful, Body, Published, Cut, Possible, ChainableRun, StepsOf;
    RunTail(w, s, its);
    StepPublishes(w, r, s, events);
    RecordsRun(w, Lengthened(w, r, s), its[0].after, its[1..], events[1..]);
    assert events[1..][|its| - 1..] == events[|its|..];
  }

  lemma CutLength(steps: seq<SpanStep>)
    ensures |steps| >= 6 ==> |Cut(steps)| >= 6
    ensures |Cut(steps)| <= 8192 && (steps != [] ==> Cut(steps) != [])
  {
  }

  lemma EndsPublished(w: Walk, r: RecView, s: WalkState, events: seq<Event>)
    requires w.pool.Valid() && Possible(w, s, events) && RunOver(w, s, events)
    requires r.active && r.recording && |r.steps| >= 6 && r.key.Some? && r.key.value.feePips < FEE_SCALE
    ensures Published(w, r, s, events) != []
    ensures Published(w, r, s, events)[0] == Publication(r.key.value, Held(r, w.pool.arc))
  {
    hide Body;
  }

  /** Such a run begins behind the first chainable iteration, and behind every jump. */
  lemma RunBegins(w: Walk, r: RecView, s: WalkState)
    requires w.Valid() && s.Valid() && Tracks(w, r, s) && r.recording && !r.atBoundary
    requires Body(w, s).Ok? && Body(w, s).value.chainable
    ensures
      var it := Body(w, s).value;
      var r' := Observed(r, KeyOf(w, it.after.liquidity), s.tick, s.sqrtPrice, it.step, it.chainable, it.landed);
      r' == r.(atBoundary := true) && r'.steps == [] && Tracks(w, r', it.after)
  {
    ObserveTracks(w, r, s);
  }

  // ---- The recorder in place ----

  class Recorder {
    var key: Option<RunKey>
    var firstTick: int
    var firstSqrt: nat
    var steps: seq<SpanStep>
    var atBoundary: bool
    var active: bool
    var recording: bool

    function View(): RecView
      reads this
    {
      RecView(key, firstTick, firstSqrt, steps, atBoundary, active, recording)
    }

    constructor (enabled: bool)
      ensures View() == RecView(None, 0, 0, [], false, enabled, enabled)
    {
      key, firstTick, firstSqrt, steps, atBoundary := None, 0, 0, [], false;
      active, recording := enabled, enabled;
    }

    /** `publish`: hands the recorded run to the cache, or drops it. */
    method PublishRun(cache: SpanCache, bitmap: Arc)
      requires cache.Valid()
      modifies this, cache, cache.repr
      ensures cache.Valid() && fresh(cache.repr - old(cache.repr)) && cache.enabled == old(cache.enabled)
      ensures View() == Emptied(old(View()))
      ensures cache.view == PublishInto(old(cache.view), cache.shardOf, old(View()), bitmap)
    {
      hide Insert, WithinBudget;
      if key.None? {
        steps := [];
        return;
      }
      var k := key.value;
      key := None;
      atBoundary := false;
      if |steps| < MIN_CHAIN_STEPS {
        steps := [];
        return;
      }
      var taken := steps;
      steps := [];
      var chain := Build(k, bitmap, firstTick, firstSqrt, taken);
      if chain != null {
        cache.MakesFit(chain, cache.shardOf(k), k, chain.View());
        cache.InsertOrExtend(k, chain);
      }
    }

    method Observe(cache: SpanCache, bitmap: Arc, key: RunKey, startTick: int, startSqrt: nat, step: SpanStep,
                   chainable: bool, landed: bool)
      requires cache.Valid()
      modifies this, cache, cache.repr
      ensures cache.Valid() && fresh(cache.repr - old(cache.repr)) && cache.enabled == old(cache.enabled)
      ensures View() == Observed(old(View()), key, startTick, startSqrt, step, chainable, landed)
      ensures cache.view ==
        if Breaks(old(View()), chainable) then PublishInto(old(cache.view), cache.shardOf, old(View()), bitmap)
        else old(cache.view)
    {
      hide PublishInto, SpanCache.Valid;
      if !recording {
        return;
      }
      if chainable && atBoundary {
        if steps == [] {
          this.key := Some(key);
          firstTick := startTick;
          firstSqrt := startSqrt;
        }
        if |steps| < MAX_CHAIN_STEPS {
          steps := steps + [step];
        }
      } else if steps != [] {
        PublishRun(cache, bitmap);
      }
      atBoundary := chainable && landed;
    }

    /** A jump happened: what was recorded so far is published, and a new run starts. */
    method Flush(cache: SpanCache, bitmap: Arc, atBoundaryNow: bool)
      requires cache.Valid()
      modifies this, cache, cache.repr
      ensures cache.Valid() && fresh(cache.repr - old(cache.repr)) && cache.enabled == old(cache.enabled)
      ensures View() == Flushed(old(View())).(atBoundary := atBoundaryNow)
      ensures cache.view ==
        if old(active && steps != []) then PublishInto(old(cache.view), cache.shardOf, old(View()), bitmap)
        else old(cache.view)
    {
      hide PublishInto, SpanCache.Valid;
      if active && steps != [] {
        PublishRun(cache, bitmap);
      }
      atBoundary := atBoundaryNow;
    }

    method Finish(cache: SpanCache, bitmap: Arc)
      requires cache.Valid()
      modifies this, cache, cache.repr
      ensures cache.Valid() && fresh(cache.repr - old(cache.repr)) && cache.enabled == old(cache.enabled)
      ensures View() == Flushed(old(View()))
      ensures cache.view ==
        if old(active && steps != []) then PublishInto(old(cache.view), cache.shardOf, old(View()), bitmap)
        else old(cache.view)
    {
      hide PublishInto, SpanCache.Valid;
      if active && steps != [] {
        PublishRun(cache, bitmap);
      }
    }
  }
}
