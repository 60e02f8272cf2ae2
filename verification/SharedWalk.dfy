/**
 Many walks at once over the one cache of the process. A walk holds no lock between its steps: it
 locks a shard only to look up a jump or to insert a recording, and between two of its steps the
 others may publish, extend and evict as they like.
 */
module SharedWalk {
  import opened Wrappers
  import opened SwapMath
  import opened ReferenceWalk
  import opened SpanChains
  import opened SpanJump
  import opened SpanCaches
  import opened Recorders
  import opened SpanWalk
  import PoolSpace

  /**
   One walk under way: where it started, the state it is in, how many iterations of the plain loop
   it has covered, its recorder, and the recording it is about to insert.
   */
  datatype Walker = Walker(w: Walk, amountIn: nat, s: WalkState, covered: nat, r: RecView, pending: Option<Publication>)

  datatype System = System(walkers: map<nat, Walker>, cache: CacheView)

  datatype Action =
    | Begin(id: nat, w: Walk, amountIn: nat, useTable: bool)
    | Iterate(id: nat)  // one loop body, observed by the recorder
    | Skip(id: nat)     // a jump under the shard's lock, and the recorder's flush
    | Store(id: nat)    // the waiting recording goes into the cache under the shard's lock
    | Finish(id: nat)   // the loop is over: what is left of the recording waits for the lock
    | Leave(id: nat)
    | Recount(total: nat) // reservations and releases of other shards move the counter

  function Waiting(r: RecView, bitmap: Arc): Option<Publication> {
    if Publishable(r) then Some(Publication(r.key.value, Held(r, bitmap))) else None
  }

  function Begun(w: Walk, amountIn: nat, useTable: bool): Walker {
    Walker(w, amountIn, Start(w, amountIn), 0, RecView(None, 0, 0, [], false, useTable, useTable), None)
  }

  ghost predicate CanIterate(k: Walker) {
    k.w.pool.Valid() && k.pending.None? && !Done(k.w, k.s) && Body(k.w, k.s).Ok?
  }

  ghost function Iterated(k: Walker): Walker
    requires CanIterate(k)
  {
    var it := Body(k.w, k.s).value;
    k.(s := it.after,
       covered := k.covered + 1,
       r := Observed(k.r, KeyOf(k.w, it.after.liquidity), k.s.tick, k.s.sqrtPrice, it.step, it.chainable, it.landed),
       pending := if Breaks(k.r, it.chainable) then Waiting(k.r, k.w.pool.arc) else None)
  }

  /** The jump the cache offers to a walk at this moment. */
  ghost function Offered(v: CacheView, shardOf: RunKey -> nat, k: Walker): Option<Jump>
    requires k.w.pool.Valid()
  {
    var key := KeyOf(k.w, k.s.liquidity);
    var i := shardOf(key);
    if i < |v.shards| && key in v.shards[i]
    then OfferTo(v.shards[i][key], k.w, k.s)
    else None
  }

  ghost predicate CanSkip(v: CacheView, shardOf: RunKey -> nat, k: Walker) {
    && k.w.pool.Valid() && k.pending.None? && k.r.active && MayJump(k.w, k.s.liquidity)
    && Offered(v, shardOf, k).Some? && Offered(v, shardOf, k).value.consumed <= k.s.remaining
  }

  ghost function Skipped(v: CacheView, shardOf: RunKey -> nat, k: Walker): Walker
    requires CanSkip(v, shardOf, k)
  {
    var jump := Offered(v, shardOf, k).value;
    k.(s := Landed(k.s, jump),
       covered := k.covered + jump.steps,
       r := Flushed(k.r).(atBoundary := true),
       pending := if k.r.steps != [] then Waiting(k.r, k.w.pool.arc) else None)
  }

  ghost predicate CanFinish(k: Walker) {
    k.pending.None? && Done(k.w, k.s)
  }

  ghost function Finished(k: Walker): Walker {
    k.(r := Flushed(k.r), pending := if k.r.active && k.r.steps != [] then Waiting(k.r, k.w.pool.arc) else None)
  }

  /** The pool of a new walk has an allocation that means the same words wherever it is in use. */
  ghost predicate Fits(x: System, bitmap: Arc) {
    && Anchored(x.cache, bitmap)
    && forall id :: id in x.walkers && x.walkers[id].w.pool.arc.ptr == bitmap.ptr ==> x.walkers[id].w.pool.arc == bitmap
  }

  ghost predicate Enabled(m: PriceMath, shardOf: RunKey -> nat, x: System, a: Action) {
    match a
    case Begin(id, w, amountIn, _) =>
      id !in x.walkers && w.math == m && w.pool.Valid() && amountIn < TWO255 && Fits(x, w.pool.arc)
    case Iterate(id) => id in x.walkers && CanIterate(x.walkers[id])
    case Skip(id) => id in x.walkers && CanSkip(x.cache, shardOf, x.walkers[id])
    case Store(id) =>
      && id in x.walkers && x.walkers[id].pending.Some?
      && shardOf(x.walkers[id].pending.value.key) < |x.cache.shards|
    case Finish(id) => id in x.walkers && CanFinish(x.walkers[id])
    case Leave(id) => id in x.walkers
    case Recount(_) => true
  }

  ghost function Act(m: PriceMath, shardOf: RunKey -> nat, x: System, a: Action): System
    requires Enabled(m, shardOf, x, a)
  {
    match a
    case Begin(id, w, amountIn, useTable) => x.(walkers := x.walkers[id := Begun(w, amountIn, useTable)])
    case Iterate(id) => x.(walkers := x.walkers[id := Iterated(x.walkers[id])])
    case Skip(id) => x.(walkers := x.walkers[id := Skipped(x.cache, shardOf, x.walkers[id])])
    case Store(id) =>
      var p := x.walkers[id].pending.value;
      System(x.walkers[id := x.walkers[id].(pending := None)], Insert(x.cache, shardOf(p.key), p.key, p.chain))
    case Finish(id) => x.(walkers := x.walkers[id := Finished(x.walkers[id])])
    case Leave(id) => x.(walkers := x.walkers - {id})
    case Recount(total) => x.(cache := x.cache.(total := total))
  }

  // ---- What every action keeps ----

  /** What a walk knows of itself, whatever the others do. */
  ghost predicate OwnInv(m: PriceMath, k: Walker) {
    && k.w.math == m && k.w.pool.Valid() && k.amountIn < TWO255 && k.s.Valid()
    && RunsTo(k.w, Start(k.w, k.amountIn), k.covered, k.s)
    && Tracks(k.w, k.r, k.s)
    && (k.pending.Some? ==>
          && Sound(m, k.pending.value.key, k.pending.value.chain)
          && k.pending.value.chain.bitmap == k.w.pool.arc)
  }

  /** What it relies on from the others: an address in use has one content. */
  ghost predicate SharedInv(x: System) {
    && (forall id :: id in x.walkers ==> Anchored(x.cache, x.walkers[id].w.pool.arc))
    && forall i, j :: i in x.walkers && j in x.walkers ==> SameContent(x.walkers[i].w.pool.arc, x.walkers[j].w.pool.arc)
  }

  predicate SameContent(a: Arc, b: Arc) {
    a.ptr == b.ptr ==> a == b
  }

  ghost predicate Inv(m: PriceMath, x: System) {
    && Lawful(m) && AllSound(m, x.cache)
    && (forall id :: id in x.walkers ==> OwnInv(m, x.walkers[id]))
    && SharedInv(x)
  }

  lemma WaitingSound(w: Walk, r: RecView, s: WalkState)
    requires w.pool.Valid() && Tracks(w, r, s) && r.steps != [] && Waiting(r, w.pool.arc).Some?
    ensures
      var p := Waiting(r, w.pool.arc).value;
      Sound(w.math, p.key, p.chain) && p.chain.bitmap == w.pool.arc
  {
  }

  lemma IterateKeeps(m: PriceMath, k: Walker)
    requires Lawful(m) && OwnInv(m, k) && CanIterate(k)
    ensures OwnInv(m, Iterated(k))
  {
    hide Lawful, Body, Observed, Tracks, Waiting, Sound;
    StepKinds(k.w, k.s);
    ObserveTracks(k.w, k.r, k.s);
    var it := Body(k.w, k.s).value;
    assert RunsTo(k.w, it.after, 0, it.after);
    RunAppends(k.w, Start(k.w, k.amountIn), k.covered, k.s, 1, it.after);
    if Breaks(k.r, it.chainable) && Waiting(k.r, k.w.pool.arc).Some? {
      WaitingSound(k.w, k.r, k.s);
    }
  }

  lemma SkipKeeps(m: PriceMath, v: CacheView, shardOf: RunKey -> nat, k: Walker)
    requires Lawful(m) && OwnInv(m, k) && CanSkip(v, shardOf, k)
    requires AllSound(m, v) && Anchored(v, k.w.pool.arc)
    ensures OwnInv(m, Skipped(v, shardOf, k))
    ensures Offered(v, shardOf, k).value.steps >= MIN_JUMP_STEPS
  {
    hide Lawful, JumpOf, RunsTo, Tracks, Waiting, Sound, AllSound, Anchored, Flushed;
    var key := KeyOf(k.w, k.s.liquidity);
    assert Grown(v, v, k.w.pool.arc);
    CachedJumpIsRun(k.w, v, v, shardOf(key), k.s);
    var t := Skipped(v, shardOf, k).s;
    var steps := Offered(v, shardOf, k).value.steps;
    RunKeepsValid(k.w, k.s, steps, t);
    RunAppends(k.w, Start(k.w, k.amountIn), k.covered, k.s, steps, t);
    FlushTracks(k.w, k.r, k.s, t, true);
    if k.r.steps != [] && Waiting(k.r, k.w.pool.arc).Some? {
      WaitingSound(k.w, k.r, k.s);
    }
  }

  lemma FinishKeeps(m: PriceMath, k: Walker)
    requires Lawful(m) && OwnInv(m, k) && CanFinish(k)
    ensures OwnInv(m, Finished(k))
  {
    hide Lawful, Sound, RunsTo;
  }

  /** An insertion under one bitmap leaves every address that agrees with it at its content. */
  lemma InsertKeepsAnchored(m: PriceMath, v: CacheView, u: CacheView, mine: Arc, other: Arc)
    requires AllSound(m, u) && Grown(v, u, mine) && Anchored(v, other) && SameContent(mine, other)
    ensures Anchored(u, other)
  {
    hide Follows, Arrival;
    forall i, k | 0 <= i < |u.shards| && k in u.shards[i] && k.bitmapPtr == other.ptr
      ensures u.shards[i][k].bitmap == other
    {
      assert Sound(m, k, u.shards[i][k]);
    }
  }

  lemma InsertKeeps(m: PriceMath, shardOf: RunKey -> nat, x: System, id: nat)
    requires Inv(m, x) && Enabled(m, shardOf, x, Store(id))
    ensures Inv(m, Act(m, shardOf, x, Store(id)))
    ensures Grown(x.cache, Act(m, shardOf, x, Store(id)).cache, x.walkers[id].w.pool.arc)
  {
    hide Lawful, Sound, RunsTo, Tracks, AllSound, Anchored, Insert, Grown, SameContent;
    var k := x.walkers[id];
    var p := k.pending.value;
    var y := Act(m, shardOf, x, Store(id));
    assert OwnInv(m, k);
    InsertKeepsSound(m, x.cache, shardOf(p.key), p.key, p.chain);
    forall j | j in y.walkers ensures Anchored(y.cache, y.walkers[j].w.pool.arc) {
      InsertKeepsAnchored(m, x.cache, y.cache, k.w.pool.arc, x.walkers[j].w.pool.arc);
    }
  }

  /** Replacing a walk by a later state of the same walk disturbs nobody. */
  lemma OwnStep(m: PriceMath, x: System, id: nat, k: Walker)
    requires Inv(m, x) && id in x.walkers && OwnInv(m, k) && k.w == x.walkers[id].w
    ensures Inv(m, x.(walkers := x.walkers[id := k]))
  {
    hide Lawful, OwnInv, AllSound, Anchored, SameContent;
  }

  lemma BeginKeeps(m: PriceMath, x: System, id: nat, w: Walk, amountIn: nat, useTable: bool)
    requires Inv(m, x) && w.math == m && w.pool.Valid() && amountIn < TWO255 && Fits(x, w.pool.arc)
    ensures Inv(m, x.(walkers := x.walkers[id := Begun(w, amountIn, useTable)]))
  {
    hide Lawful, AllSound, Anchored;
    StartTracks(w, Start(w, amountIn), useTable);
    assert OwnInv(m, Begun(w, amountIn, useTable));
    hide OwnInv;
  }

  lemma RecountKeeps(m: PriceMath, x: System, total: nat)
    requires Inv(m, x)
    ensures Inv(m, x.(cache := x.cache.(total := total)))
  {
    hide Lawful, OwnInv, Sound, SameContent;
    var v := x.cache.(total := total);
    assert AllSound(m, v);
    forall id | id in x.walkers ensures Anchored(v, x.walkers[id].w.pool.arc) {
      assert Anchored(x.cache, x.walkers[id].w.pool.arc);
    }
  }

  /** Every action of every walk keeps the whole system in order. */
  lemma ActKeepsInv(m: PriceMath, shardOf: RunKey -> nat, x: System, a: Action)
    requires Inv(m, x) && Enabled(m, shardOf, x, a)
    ensures Inv(m, Act(m, shardOf, x, a))
  {
    hide OwnInv, CanIterate, CanSkip, CanFinish, Iterated, Skipped, Lawful, AllSound, Anchored, Insert;
    match a
    case Begin(id, w, amountIn, useTable) => BeginKeeps(m, x, id, w, amountIn, useTable);
    case Iterate(id) =>
      IterateKeeps(m, x.walkers[id]);
      SameWalk(x.walkers[id]);
      OwnStep(m, x, id, Iterated(x.walkers[id]));
    case Skip(id) =>
      SkipKeeps(m, x.cache, shardOf, x.walkers[id]);
      SkippedSameWalk(x.cache, shardOf, x.walkers[id]);
      OwnStep(m, x, id, Skipped(x.cache, shardOf, x.walkers[id]));
    case Store(id) => InsertKeeps(m, shardOf, x, id);
    case Finish(id) =>
      FinishKeeps(m, x.walkers[id]);
      OwnStep(m, x, id, Finished(x.walkers[id]));
    case Leave(id) =>
    case Recount(total) => RecountKeeps(m, x, total);
  }

  lemma SameWalk(k: Walker)
    requires CanIterate(k)
    ensures Iterated(k).w == k.w && Iterated(k).amountIn == k.amountIn
  {
  }

  lemma SkippedSameWalk(v: CacheView, shardOf: RunKey -> nat, k: Walker)
    requires CanSkip(v, shardOf, k)
    ensures Skipped(v, shardOf, k).w == k.w && Skipped(v, shardOf, k).amountIn == k.amountIn
  {
  }

  // ---- Whole runs ----

  ghost predicate Run(m: PriceMath, shardOf: RunKey -> nat, x: System, actions: seq<Action>)
    decreases |actions|
  {
    actions == [] ||
    (Enabled(m, shardOf, x, actions[0]) && Run(m, shardOf, Act(m, shardOf, x, actions[0]), actions[1..]))
  }

  ghost function AfterRun(m: PriceMath, shardOf: RunKey -> nat, x: System, actions: seq<Action>): System
    requires Run(m, shardOf, x, actions)
    decreases |actions|
  {
    if actions == [] then x else AfterRun(m, shardOf, Act(m, shardOf, x, actions[0]), actions[1..])
  }

  lemma {:induction false} RunKeepsInv(m: PriceMath, shardOf: RunKey -> nat, x: System, actions: seq<Action>)
    requires Inv(m, x) && Run(m, shardOf, x, actions)
    ensures Inv(m, AfterRun(m, shardOf, x, actions))
    decreases |actions|
  {
    hide Inv, Enabled, Act;
    if actions != [] {
      ActKeepsInv(m, shardOf, x, actions[0]);
      RunKeepsInv(m, shardOf, Act(m, shardOf, x, actions[0]), actions[1..]);
    }
  }

  /** No walks, and an empty cache. */
  function Idle(): System {
    System(map[], CacheView(seq(SHARD_COUNT, _ => map[]), 0))
  }

  lemma OwnExact(m: PriceMath, k: Walker)
    requires OwnInv(m, k)
    ensures k.w.pool.Valid() && RunsTo(k.w, Start(k.w, k.amountIn), k.covered, k.s)
    ensures
      Done(k.w, k.s) || Body(k.w, k.s).Err? ==>
        Halts(k.w, Start(k.w, k.amountIn)) && Outcome(k.w, Start(k.w, k.amountIn)) == Returned(k.w, k.s)
  {
    hide Body, Tracks, Sound, RunsTo;
    if Done(k.w, k.s) || Body(k.w, k.s).Err? {
      OutcomeIs(k.w, Start(k.w, k.amountIn), k.covered, k.s);
    }
  }

  /**
   Over every interleaving, each walk is at every moment exactly where the plain loop is after the
   iterations it has covered; a walk that has come to its end has the plain loop's result.
   */
  lemma EveryWalkExact(m: PriceMath, shardOf: RunKey -> nat, actions: seq<Action>, id: nat)
    requires Lawful(m) && Run(m, shardOf, Idle(), actions)
    requires id in AfterRun(m, shardOf, Idle(), actions).walkers
    ensures
      var k := AfterRun(m, shardOf, Idle(), actions).walkers[id];
      && k.w.pool.Valid()
      && RunsTo(k.w, Start(k.w, k.amountIn), k.covered, k.s)
      && (Done(k.w, k.s) || Body(k.w, k.s).Err? ==>
            Halts(k.w, Start(k.w, k.amountIn)) && Outcome(k.w, Start(k.w, k.amountIn)) == Returned(k.w, k.s))
  {
    hide Lawful, Body, RunsTo, Run, AfterRun, OwnInv;
    assert Inv(m, Idle());
    RunKeepsInv(m, shardOf, Idle(), actions);
    OwnExact(m, AfterRun(m, shardOf, Idle(), actions).walkers[id]);
  }

  /**
   A walk covers no more iterations than the plain loop makes: where that one ends after n, each
   iteration and each jump of the walk comes closer to n, whatever the others do.
   */
  lemma NeverBeyondEnd(m: PriceMath, k: Walker, n: nat, t: WalkState)
    requires Lawful(m) && OwnInv(m, k) && EndsAt(k.w, Start(k.w, k.amountIn), n, t)
    ensures k.covered <= n && (k.covered == n <==> Done(k.w, k.s) || Body(k.w, k.s).Err?)
    ensures k.covered == n ==> k.s == t
  {
    hide Lawful, Body, Done, Tracks, Sound;
    EndAfterRun(k.w, Start(k.w, k.amountIn), n, t, k.covered, k.s);
    assert RunsTo(k.w, k.s, n - k.covered, t);
  }

  // ---- The pools behind the walks ----

  /** The walks under way are walks of pools of the world, on the same cache. */
  ghost predicate WalksOf(x: PoolSpace.World, y: System) {
    y.cache == x.cache && forall id :: id in y.walkers ==> y.walkers[id].w.pool.arc in PoolSpace.PoolArcs(x)
  }

  /** In a coherent world a walk of any pool may begin at any time. */
  lemma BeginFits(m: PriceMath, x: PoolSpace.World, y: System, pool: nat)
    requires PoolSpace.Coherent(m, x) && WalksOf(x, y) && pool in x.pools
    ensures Fits(y, x.pools[pool].arc)
  {
    hide Lawful, AllSound;
    PoolSpace.HitIsCurrent(m, x, pool);
    assert x.pools[pool].arc in PoolSpace.PoolArcs(x);
  }

  /** Storing what a walk of a pool recorded is one of the operations the world stays coherent under. */
  lemma StoreIsCached(m: PriceMath, shardOf: RunKey -> nat, x: PoolSpace.World, y: System, id: nat, pool: nat)
    requires PoolSpace.Coherent(m, x) && Inv(m, y) && Enabled(m, shardOf, y, Store(id))
    requires WalksOf(x, y) && pool in x.pools && x.pools[pool].arc == y.walkers[id].w.pool.arc
    ensures
      var v := Act(m, shardOf, y, Store(id)).cache;
      && PoolSpace.Allowed(m, x, PoolSpace.Cached(pool, v))
      && PoolSpace.Coherent(m, x.(cache := v))
      && WalksOf(x.(cache := v), Act(m, shardOf, y, Store(id)))
  {
    hide Lawful, AllSound, Anchored, Grown, OwnInv, Insert;
    InsertKeeps(m, shardOf, y, id);
    var v := Act(m, shardOf, y, Store(id)).cache;
    PoolSpace.OpKeepsCoherent(m, x, PoolSpace.Cached(pool, v));
    assert PoolSpace.PoolArcs(x.(cache := v)) == PoolSpace.PoolArcs(x);
  }
}
