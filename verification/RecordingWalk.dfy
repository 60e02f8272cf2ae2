/**
 The walk that records and jumps, on values: one pass of its loop as a function, and what passes save.
 */
module RecordingWalk {
  import opened Wrappers
  import opened SwapMath
  import opened ReferenceWalk
  import opened SpanChains
  import opened SpanTables
  import opened SpanJump
  import opened SpanCaches
  import opened Recorders

  const GATE_EMPTY_WORDS: nat := 2

  /**
   When a jump is tried: after two chainable words in a row, or, in the V4 loop, two words without an
   initialized tick at enough liquidity.
   */
  predicate Gate(w: Walk, s: WalkState, emptyWords: nat) {
    if w.stopsInVoid then s.words >= GATE_EMPTY_WORDS && s.liquidity >= MIN_V3_LIQUIDITY
    else emptyWords >= GATE_EMPTY_WORDS
  }

  datatype Table = Table(enabled: bool, shardOf: RunKey -> nat)

  /** Everything the loop carries from pass to pass. */
  datatype Cursor = Cursor(s: WalkState, r: RecView, v: CacheView, emptyWords: nat, jumpChecked: bool)

  ghost predicate Ready(w: Walk, table: Table, c: Cursor) {
    w.pool.Valid() && forall k :: table.shardOf(k) < |c.v.shards|
  }

  ghost function AtStart(w: Walk, amountIn: nat, useTable: bool, v: CacheView): Cursor {
    Cursor(Start(w, amountIn), RecView(None, 0, 0, [], false, useTable, useTable), v, 0, false)
  }

  ghost function Published(w: Walk, table: Table, c: Cursor): CacheView
    requires Ready(w, table, c)
  {
    PublishInto(c.v, table.shardOf, c.r, w.pool.arc)
  }

  /** The loop runs its body here, and the body succeeds. */
  ghost predicate Goes(w: Walk, c: Cursor)
    requires w.pool.Valid()
  {
    !Done(w, c.s) && Body(w, c.s).Ok?
  }

  /** The cursor after the body, as the recorder observes it. */
  ghost function Iterated(w: Walk, table: Table, c: Cursor): Cursor
    requires Ready(w, table, c) && Goes(w, c)
  {
    var it := Body(w, c.s).value;
    c.(s := it.after,
       r := Observed(c.r, KeyOf(w, it.after.liquidity), c.s.tick, c.s.sqrtPrice, it.step, it.chainable, it.landed),
       v := if Breaks(c.r, it.chainable) then Published(w, table, c) else c.v)
  }

  /** The jump the cache offers here. */
  ghost function Offer(w: Walk, table: Table, c: Cursor): Option<Jump>
    requires Ready(w, table, c)
  {
    var key := KeyOf(w, c.s.liquidity);
    var g := c.v.shards[table.shardOf(key)];
    if table.enabled && key in g then OfferTo(g[key], w, c.s) else None
  }

  /** A jump is tried here: taken if there is one that can be paid. */
  ghost function Tried(w: Walk, table: Table, c: Cursor): Cursor
    requires Ready(w, table, c)
  {
    var j := Offer(w, table, c);
    if j.None? || j.value.consumed > c.s.remaining then c.(jumpChecked := true)
    else
      Cursor(Landed(c.s, j.value), Flushed(c.r).(atBoundary := true),
             if c.r.active && c.r.steps != [] then Published(w, table, c) else c.v,
             c.emptyWords + j.value.steps, false)
  }

  /** One pass of the loop. */
  ghost function Pass(w: Walk, table: Table, c: Cursor): Cursor
    requires Ready(w, table, c) && Goes(w, c)
  {
    var it := Body(w, c.s).value;
    IteratedReady(w, table, c);
    if !c.r.active then c.(s := it.after)
    else if !it.chainable then Iterated(w, table, c).(emptyWords := 0, jumpChecked := false)
    else
      var d := Iterated(w, table, c).(emptyWords := c.emptyWords + 1);
      if !d.jumpChecked && Gate(w, d.s, d.emptyWords) then Tried(w, table, d) else d
  }

  lemma PublishedReady(w: Walk, table: Table, c: Cursor)
    requires Ready(w, table, c)
    ensures |Published(w, table, c).shards| == |c.v.shards|
  {
    hide Insert;
    if Publishable(c.r) {
      InsertLeavesOthers(c.v, table.shardOf(c.r.key.value), c.r.key.value, Held(c.r, w.pool.arc));
    }
  }

  lemma IteratedReady(w: Walk, table: Table, c: Cursor)
    requires Ready(w, table, c) && Goes(w, c)
    ensures Ready(w, table, Iterated(w, table, c)) && |Iterated(w, table, c).v.shards| == |c.v.shards|
  {
    hide Published, Body;
    PublishedReady(w, table, c);
  }

  lemma PassReady(w: Walk, table: Table, c: Cursor)
    requires Ready(w, table, c) && Goes(w, c)
    ensures Ready(w, table, Pass(w, table, c)) && Pass(w, table, c).r.active == c.r.active
  {
    hide Published, Body, Offer;
    IteratedReady(w, table, c);
    PublishedReady(w, table, Iterated(w, table, c).(emptyWords := c.emptyWords + 1));
  }

  /** n passes of the loop lead from c to d. */
  ghost predicate PassesTo(w: Walk, table: Table, c: Cursor, n: nat, d: Cursor)
    decreases n
  {
    && Ready(w, table, c)
    && if n == 0 then d == c else Goes(w, c) && PassesTo(w, table, Pass(w, table, c), n - 1, d)
  }

  lemma {:induction false} OnePassMore(w: Walk, table: Table, c: Cursor, n: nat, d: Cursor)
    requires PassesTo(w, table, c, n, d) && Goes(w, d)
    ensures Ready(w, table, d) && PassesTo(w, table, c, n + 1, Pass(w, table, d))
    decreases n
  {
    hide Pass, Goes, Ready;
    if n > 0 {
      OnePassMore(w, table, Pass(w, table, c), n - 1, d);
    } else {
      PassReady(w, table, d);
    }
  }

  /** What the last publication leaves in the cache. */
  ghost function Left(w: Walk, table: Table, c: Cursor): CacheView
    requires Ready(w, table, c)
  {
    if c.r.active && c.r.steps != [] then Published(w, table, c) else c.v
  }

  // ---- The table is used: what is stored saves passes ----

  lemma ChainablePass(w: Walk, s: WalkState)
    requires w.Valid() && s.Valid() && Body(w, s).Ok? && Body(w, s).value.chainable
    ensures
      var t := Body(w, s).value.after;
      t.liquidity == s.liquidity && t.words == s.words + 1 && t.Valid()
  {
    hide Lawful, ComputeSwapStep;
    ChainableIsWordStep(w, s);
    StepKinds(w, s);
  }

  /** A pass over a chainable iteration behind the gate takes the jump the cache offers. */
  lemma PassTakesJump(w: Walk, table: Table, c: Cursor, jump: Jump)
    requires Ready(w, table, c) && Goes(w, c) && c.r.active && !c.jumpChecked && Body(w, c.s).value.chainable
    requires
      var s := Body(w, c.s).value.after;
      if w.stopsInVoid then s.words >= 2 && s.liquidity >= 100_000 else c.emptyWords >= 1
    requires Ready(w, table, Iterated(w, table, c))
    requires Offer(w, table, Iterated(w, table, c)) == Some(jump)
    requires jump.consumed <= Body(w, c.s).value.after.remaining
    ensures Pass(w, table, c).s == Landed(Body(w, c.s).value.after, jump) && !Pass(w, table, c).jumpChecked
  {
    hide Body;
  }

  /**
   Stored runs save passes: if a walk starts over two chainable words and the cache then holds the
   longest run of steps j to k for it, its first two passes cover two iterations and the whole run.
   */
  lemma StoredRunIsJumped(w: Walk, table: Table, amountIn: nat, v: CacheView, its: seq<Iteration>, j: nat, k: nat)
    returns (d: Cursor)
    requires w.Valid() && amountIn < TWO255 && table.enabled && AllSound(w.math, v) && Anchored(v, w.pool.arc)
    requires forall x :: table.shardOf(x) < |v.shards|
    requires |its| == 2 && ChainableRun(w, Start(w, amountIn), its)
    requires w.stopsInVoid ==> w.pool.liquidity >= 100_000
    requires
      var key := KeyOf(w, w.pool.liquidity);
      var s := its[1].after;
      && key in v.shards[table.shardOf(key)]
      && LongestRun(v.shards[table.shardOf(key)][key], FEE_SCALE - w.pool.fee, w.zeroForOne, s.tick, s.sqrtPrice,
                    s.remaining, w.limit, j, k)
    ensures PassesTo(w, table, AtStart(w, amountIn, true, v), 2, d)
    ensures RunsTo(w, Start(w, amountIn), 2 + (k + 1 - j), d.s)
    ensures d.s.tick == v.shards[table.shardOf(KeyOf(w, w.pool.liquidity))][KeyOf(w, w.pool.liquidity)].steps[k].endTick
  {
    hide Lawful, Body, LongestRun, Observed, PublishInto, Sound, RunsTo, Arrival, Tried, OfferTo, ChainableRun;
    var s0, s1, s2 := Start(w, amountIn), its[0].after, its[1].after;
    RunTail(w, s0, its);
    RunTail(w, s1, its[1..]);
    ChainablePass(w, s0);
    ChainablePass(w, s1);
    var c0 := AtStart(w, amountIn, true, v);
    var key := KeyOf(w, w.pool.liquidity);
    var c := v.shards[table.shardOf(key)][key];
    FirstPass(w, table, c0);
    var c1 := Pass(w, table, c0);
    SecondIteration(w, table, c1);
    OfferedRun(w, v, table.shardOf(key), s2, j, k);
    var jump := OfferTo(c, w, s2).value;
    PassTakesJump(w, table, c1, jump);
    d := Pass(w, table, c1);
    PassReady(w, table, c1);
    assert PassesTo(w, table, d, 0, d);
    assert PassesTo(w, table, c1, 1, d);
    OneBody(w, s0);
    OneBody(w, s1);
    RunAppends(w, s0, 1, s1, 1, s2);
    RunAppends(w, s0, 2, s2, jump.steps, d.s);
  }

  /** The longest run stored for a state is offered as a jump that can be paid. */
  lemma OfferedRun(w: Walk, v: CacheView, i: nat, s: WalkState, j: nat, k: nat)
    requires w.Valid() && s.Valid() && AllSound(w.math, v) && Anchored(v, w.pool.arc) && i < |v.shards|
    requires KeyOf(w, s.liquidity) in v.shards[i] && MayJump(w, s.liquidity)
    requires LongestRun(v.shards[i][KeyOf(w, s.liquidity)], FEE_SCALE - w.pool.fee, w.zeroForOne, s.tick, s.sqrtPrice,
                        s.remaining, w.limit, j, k)
    ensures
      var c := v.shards[i][KeyOf(w, s.liquidity)];
      && OfferTo(c, w, s).Some? && j <= k < |c.steps|
      && var jump := OfferTo(c, w, s).value;
         && jump.steps == k + 1 - j && jump.endTick == c.steps[k].endTick
         && jump.consumed <= s.remaining && RunsTo(w, s, jump.steps, Landed(s, jump))
  {
    hide Lawful, JumpOf, RunsTo, Arrival, Passes, Follows;
    var key := KeyOf(w, s.liquidity);
    var c := v.shards[i][key];
    assert Sound(w.math, key, c);
    LongestIsOffered(w.math, key, c, FEE_SCALE - w.pool.fee, w.zeroForOne, s.tick, s.sqrtPrice,
                     s.remaining, w.limit, j, k);
    JumpIsRun(w, key, c, s);
  }

  /** The first pass of a walk over a chainable word: the recorder stands at a boundary and holds nothing yet. */
  lemma FirstPass(w: Walk, table: Table, c: Cursor)
    requires w.Valid() && c.s.Valid() && Ready(w, table, c) && Goes(w, c) && Body(w, c.s).value.chainable
    requires c.r == RecView(None, 0, 0, [], false, true, true) && c.emptyWords == 0 && !c.jumpChecked && c.s.words == 0
    ensures Ready(w, table, Pass(w, table, c))
    ensures Pass(w, table, c) == Cursor(Body(w, c.s).value.after, c.r.(atBoundary := true), c.v, 1, false)
  {
    hide Body, Tried;
    ChainablePass(w, c.s);
    PassReady(w, table, c);
    ChainableLands(w, c.s);
  }

  lemma ChainableLands(w: Walk, s: WalkState)
    requires w.pool.Valid() && Body(w, s).Ok? && Body(w, s).value.chainable
    ensures Body(w, s).value.landed
  {
  }

  /** The second iteration begins a recording and leaves the cache alone. */
  lemma SecondIteration(w: Walk, table: Table, c: Cursor)
    requires w.Valid() && c.s.Valid() && Ready(w, table, c) && Goes(w, c) && Body(w, c.s).value.chainable
    requires c.r.recording && c.r.atBoundary && c.r.steps == []
    ensures Ready(w, table, Iterated(w, table, c)) && Iterated(w, table, c).v == c.v
    ensures Iterated(w, table, c).s == Body(w, c.s).value.after
  {
    hide Body, Observed;
    IteratedReady(w, table, c);
  }

  // ---- The table fills: what a walk passes over is stored ----

  ghost predicate Unknown(w: Walk, table: Table, v: CacheView, liquidity: nat) {
    (forall k :: table.shardOf(k) < |v.shards|) && KeyOf(w, liquidity) !in v.shards[table.shardOf(KeyOf(w, liquidity))]
  }

  /** A recording walk over a chainable word of an unknown run records it and goes on. */
  lemma RecordingPass(w: Walk, table: Table, c: Cursor)
    requires w.Valid() && c.s.Valid() && Ready(w, table, c) && Goes(w, c) && Body(w, c.s).value.chainable
    requires Tracks(w, c.r, c.s) && c.r.active && c.r.recording && c.r.atBoundary
    requires Unknown(w, table, c.v, c.s.liquidity)
    ensures
      var it := Body(w, c.s).value;
      var d := Pass(w, table, c);
      && Ready(w, table, d) && d.s == it.after && d.s.Valid() && d.s.liquidity == c.s.liquidity && d.v == c.v
      && Tracks(w, d.r, d.s)
      && d.r == if c.r.steps == []
                then RecView(Some(KeyOf(w, c.s.liquidity)), c.s.tick, c.s.sqrtPrice, [it.step], true, true, true)
                else c.r.(steps := Cut(c.r.steps + [it.step]), atBoundary := true)
  {
    hide Lawful, Body, Tracks, Observed, PublishInto, Gate;
    ChainablePass(w, c.s);
    ObservedChainable(w, c.r, c.s);
    ObserveTracks(w, c.r, c.s);
    IteratedReady(w, table, c);
    PassReady(w, table, c);
  }

  lemma {:induction false} RecordingPasses(w: Walk, table: Table, c: Cursor, its: seq<Iteration>) returns (d: Cursor)
    requires w.Valid() && c.s.Valid() && Ready(w, table, c)
    requires ChainableRun(w, c.s, its)
    requires Tracks(w, c.r, c.s) && c.r.active && c.r.recording && c.r.atBoundary && c.r.steps != []
    requires Unknown(w, table, c.v, c.s.liquidity) && |c.r.steps| <= 8192
    ensures PassesTo(w, table, c, |its|, d) && Ready(w, table, d)
    ensures d.s == EndOf(c.s, its) && d.v == c.v
    ensures d.r == c.r.(steps := Cut(c.r.steps + StepsOf(its)))
    decreases |its|
  {
    hide Lawful, Body, Tracks, Pass, Ready, Unknown, ChainableRun, StepsOf, Cut;
    if its == [] {
      d := c;
      NoSteps(c.r);
    } else {
      RunTail(w, c.s, its);
      GoesOn(w, c);
      RecordingPass(w, table, c);
      var e := Pass(w, table, c);
      UnknownStill(w, table, c.v, c.s.liquidity, e.s.liquidity);
      CutLength(c.r.steps + [its[0].step]);
      d := RecordingPasses(w, table, e, its[1..]);
      CutTwice(c.r.steps, its[0].step, StepsOf(its[1..]));
    }
  }

  lemma GoesOn(w: Walk, c: Cursor)
    requires w.pool.Valid() && !Done(w, c.s) && Body(w, c.s).Ok?
    ensures Goes(w, c)
  {
  }

  lemma UnknownStill(w: Walk, table: Table, v: CacheView, liquidity: nat, other: nat)
    requires Unknown(w, table, v, liquidity) && other == liquidity
    ensures Unknown(w, table, v, other)
  {
  }

  /** The chain of the iterations from the second on, up to the maximum. */
  function FromSecond(w: Walk, its: seq<Iteration>): Chain
    requires its != []
  {
    Chain(w.pool.arc, its[0].after.tick, its[0].after.sqrtPrice, Cut(StepsOf(its[1..])))
  }

  /** What v holds under a key. */
  ghost predicate Holds(v: CacheView, table: Table, key: RunKey, c: Chain) {
    var i := table.shardOf(key);
    i < |v.shards| && key in v.shards[i] && v.shards[i][key] == c
  }

  /**
   An unknown run is stored: a walk whose n >= 7 iterations are all chainable leaves the cache with the
   run of its iterations from the second on, complete up to the maximum, if the budget has room.
   */
  lemma UnknownRunIsStored(w: Walk, table: Table, amountIn: nat, v: CacheView, its: seq<Iteration>) returns (d: Cursor)
    requires w.Valid() && amountIn < TWO255 && w.pool.fee < FEE_SCALE && |its| >= 7
    requires ChainableRun(w, Start(w, amountIn), its) && Unknown(w, table, v, w.pool.liquidity) && WithinBudget(v)
    requires
      var key := KeyOf(w, w.pool.liquidity);
      StepsKept(v, table.shardOf(key), key) + (if |its| - 1 <= 8192 then |its| - 1 else 8192) <= MAX_TOTAL_STEPS
    ensures PassesTo(w, table, AtStart(w, amountIn, true, v), |its|, d) && Ready(w, table, d)
    ensures d.s == EndOf(Start(w, amountIn), its)
    ensures Holds(Left(w, table, d), table, KeyOf(w, w.pool.liquidity), FromSecond(w, its))
  {
    hide Lawful, Body, WithinBudget, StepsKept, ChainableRun, Left, PassesTo;
    d := UnknownRunIsRecorded(w, table, amountIn, v, its);
    PublishedRun(w, table, d, KeyOf(w, w.pool.liquidity), FromSecond(w, its).steps);
  }

  lemma UnknownRunIsRecorded(w: Walk, table: Table, amountIn: nat, v: CacheView, its: seq<Iteration>)
    returns (d: Cursor)
    requires w.Valid() && amountIn < TWO255 && |its| >= 2
    requires ChainableRun(w, Start(w, amountIn), its) && Unknown(w, table, v, w.pool.liquidity)
    ensures PassesTo(w, table, AtStart(w, amountIn, true, v), |its|, d) && Ready(w, table, d)
    ensures d.s == EndOf(Start(w, amountIn), its) && d.v == v
    ensures
      var c := FromSecond(w, its);
      d.r == RecView(Some(KeyOf(w, w.pool.liquidity)), c.firstTick, c.firstSqrt, c.steps, true, true, true)
  {
    hide Lawful, Body, Tracks, ChainableRun, StepsOf, Ready, PassesTo, Unknown;
    var s0 := Start(w, amountIn);
    var c0 := AtStart(w, amountIn, true, v);
    RunTail(w, s0, its);
    RunTail(w, its[0].after, its[1..]);
    UnknownReady(w, table, c0, w.pool.liquidity);
    var c2 := TwoPasses(w, table, c0, its);
    UnknownStill(w, table, v, w.pool.liquidity, c2.s.liquidity);
    d := RecordingPasses(w, table, c2, its[1..][1..]);
    PassesAppend(w, table, c0, 2, c2, |its| - 2, d);
  }

  lemma UnknownReady(w: Walk, table: Table, c: Cursor, liquidity: nat)
    requires w.pool.Valid() && Unknown(w, table, c.v, liquidity)
    ensures Ready(w, table, c)
  {
  }

  /** The first two passes of a walk over an unknown run: its recording begins with the second iteration. */
  lemma TwoPasses(w: Walk, table: Table, c: Cursor, its: seq<Iteration>) returns (d: Cursor)
    requires w.Valid() && c.s.Valid() && Ready(w, table, c) && Unknown(w, table, c.v, c.s.liquidity)
    requires c.r == RecView(None, 0, 0, [], false, true, true) && c.emptyWords == 0 && !c.jumpChecked && c.s.words == 0
    requires |its| >= 2 && ChainableRun(w, c.s, its)
    ensures PassesTo(w, table, c, 2, d) && Ready(w, table, d)
    ensures
      var t := its[0].after;
      && d.s == its[1].after && d.s.Valid() && d.s.liquidity == c.s.liquidity && d.v == c.v
      && Tracks(w, d.r, d.s)
      && d.r == RecView(Some(KeyOf(w, c.s.liquidity)), t.tick, t.sqrtPrice, [its[1].step], true, true, true)
  {
    hide Lawful, Body, Tracks, Pass, Ready, Unknown, ChainableRun;
    RunTail(w, c.s, its);
    RunTail(w, its[0].after, its[1..]);
    GoesOn(w, c);
    FirstPass(w, table, c);
    ChainablePass(w, c.s);
    var e := Pass(w, table, c);
    StartedTracks(w, c, e);
    GoesOn(w, e);
    UnknownStill(w, table, c.v, c.s.liquidity, e.s.liquidity);
    RecordingPass(w, table, e);
    d := Pass(w, table, e);
    assert PassesTo(w, table, d, 0, d);
    assert PassesTo(w, table, e, 1, d);
  }

  lemma {:induction false} PassesAppend(w: Walk, table: Table, c: Cursor, n: nat, d: Cursor, k: nat, e: Cursor)
    requires PassesTo(w, table, c, n, d) && PassesTo(w, table, d, k, e)
    ensures PassesTo(w, table, c, n + k, e)
    decreases n
  {
    hide Pass, Goes, Ready;
    if n > 0 {
      PassesAppend(w, table, Pass(w, table, c), n - 1, d, k, e);
    }
  }

  lemma StartedTracks(w: Walk, c: Cursor, d: Cursor)
    requires w.Valid() && c.s.Valid() && Body(w, c.s).Ok? && Body(w, c.s).value.chainable
    requires d.s == Body(w, c.s).value.after && d.r == RecView(None, 0, 0, [], true, true, true)
    ensures Tracks(w, d.r, d.s)
  {
    hide Lawful, Body;
    ChainableIsWordStep(w, c.s);
  }

  lemma PublishedRun(w: Walk, table: Table, d: Cursor, key: RunKey, steps: seq<SpanStep>)
    requires Ready(w, table, d) && WithinBudget(d.v) && key !in d.v.shards[table.shardOf(key)]
    requires d.r == RecView(Some(key), d.r.firstTick, d.r.firstSqrt, steps, true, true, true)
    requires |steps| >= 6 && key.feePips < FEE_SCALE
    requires StepsKept(d.v, table.shardOf(key), key) + |steps| <= MAX_TOTAL_STEPS
    ensures Holds(Left(w, table, d), table, key, Chain(w.pool.arc, d.r.firstTick, d.r.firstSqrt, steps))
  {
    hide Insert, WithinBudget, StepsKept;
    NewKeyExactly(d.v, table.shardOf(key), key, Held(d.r, w.pool.arc));
    InsertLeavesOthers(d.v, table.shardOf(key), key, Held(d.r, w.pool.arc));
  }
}
