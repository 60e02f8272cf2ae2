/**
 The whole process: pools that are written, copied, replaced and dropped, and walks under way on
 them, over one cache. A walk reads its pool where it is, so that nobody changes a pool while it is
 walked; everything else interleaves freely. What `SharedWalk` asks of the bitmap of a new walk is
 here a consequence.
 */
module LiveSystem {
  import opened Wrappers
  import opened SwapMath
  import opened ReferenceWalk
  import opened SpanChains
  import opened SpanJump
  import opened SpanCaches
  import opened Recorders
  import opened SpanWalk
  import opened PoolSpace
  import opened SharedWalk
  import opened ActiveLiquidity
  import opened FairPrices

  /** The pools by id, the walks under way, the pool each of them walks, and the cache. */
  datatype Process = Process(pools: map<nat, Pool>, walkers: map<nat, Walker>, on: map<nat, nat>, cache: CacheView) {
    function Pools(): World {
      World(pools, cache)
    }

    function Walks(): System {
      System(walkers, cache)
    }

    predicate Walked(pool: nat) {
      pool in on.Values
    }
  }

  datatype Event =
    | Enter(id: nat, pool: nat, zeroForOne: bool, limit: nat, amountIn: nat, needsLiquidity: bool, stopsInVoid: bool,
            useTable: bool)           // a walk begins on a pool as it is now
    | Proceed(action: Action)         // a step of a walk under way, or its end
    | Change(op: Op)                  // a pool is written, added, copied or dropped

  function EnteredWalk(m: PriceMath, x: Process, e: Event): Walk
    requires e.Enter? && e.pool in x.pools
  {
    Walk(m, x.pools[e.pool], e.zeroForOne, e.limit, e.needsLiquidity, e.stopsInVoid)
  }

  /** The pool an operation changes. */
  function Changed(op: Op): nat {
    match op
    case Write(id, _, _) => id
    case Add(id, _) => id
    case Share(_, to, _) => to
    case Drop(id) => id
    case Cached(id, _) => id
  }

  ghost predicate Possible(m: PriceMath, shardOf: RunKey -> nat, x: Process, e: Event) {
    match e
    case Enter(id, pool, _, _, amountIn, _, _, _) => id !in x.walkers && pool in x.pools && amountIn < TWO255
    case Proceed(a) => !a.Begin? && Enabled(m, shardOf, x.Walks(), a)
    case Change(op) => !op.Cached? && Allowed(m, x.Pools(), op) && !x.Walked(Changed(op))
  }

  ghost function Next(m: PriceMath, shardOf: RunKey -> nat, x: Process, e: Event): Process
    requires Possible(m, shardOf, x, e)
  {
    match e
    case Enter(id, pool, _, _, amountIn, _, _, useTable) =>
      x.(walkers := x.walkers[id := Begun(EnteredWalk(m, x, e), amountIn, useTable)], on := x.on[id := pool])
    case Proceed(a) =>
      var y := Act(m, shardOf, x.Walks(), a);
      x.(walkers := y.walkers, cache := y.cache, on := if a.Leave? then x.on - {a.id} else x.on)
    case Change(op) =>
      x.(pools := After(m, x.Pools(), op).pools)
  }

  // ---- The invariant ----

  /** Every walk under way walks a pool of the system as it is now. */
  ghost predicate OnPresentPools(x: Process) {
    && x.on.Keys == x.walkers.Keys
    && forall id :: id in x.walkers ==> x.on[id] in x.pools && x.walkers[id].w.pool == x.pools[x.on[id]]
  }

  ghost predicate Orderly(m: PriceMath, x: Process) {
    Coherent(m, x.Pools()) && Inv(m, x.Walks()) && OnPresentPools(x)
  }

  lemma PresentWalks(x: Process)
    requires OnPresentPools(x)
    ensures WalksOf(x.Pools(), x.Walks())
  {
    forall id | id in x.walkers ensures x.walkers[id].w.pool.arc in PoolArcs(x.Pools()) {
      assert x.Pools().pools[x.on[id]].arc == x.walkers[id].w.pool.arc;
    }
  }

  /** A walk may begin on any pool at any time: its bitmap means the same wherever it is in use. */
  lemma EnterKeeps(m: PriceMath, shardOf: RunKey -> nat, x: Process, e: Event)
    requires Orderly(m, x) && e.Enter? && Possible(m, shardOf, x, e)
    ensures Orderly(m, Next(m, shardOf, x, e))
  {
    hide Coherent, Inv, Fits, PoolSpace.Allowed, Begun;
    PoolsValid(m, x.Pools(), e.pool);
    PresentWalks(x);
    BeginFits(m, x.Pools(), x.Walks(), e.pool);
    BeginKeeps(m, x.Walks(), e.id, EnteredWalk(m, x, e), e.amountIn, e.useTable);
    BegunWalk(EnteredWalk(m, x, e), e.amountIn, e.useTable);
  }

  lemma PoolsValid(m: PriceMath, x: World, pool: nat)
    requires Coherent(m, x) && pool in x.pools
    ensures x.pools[pool].Valid()
  {
  }

  lemma BegunWalk(w: Walk, amountIn: nat, useTable: bool)
    ensures Begun(w, amountIn, useTable).w == w
  {
  }

  /** No action changes what a walk walks, nor which walks there are, except that one may leave. */
  lemma ActKeepsWalks(m: PriceMath, shardOf: RunKey -> nat, x: System, a: Action)
    requires Enabled(m, shardOf, x, a) && !a.Begin?
    ensures
      var y := Act(m, shardOf, x, a);
      && y.walkers.Keys == (if a.Leave? then x.walkers.Keys - {a.id} else x.walkers.Keys)
      && (forall id :: id in y.walkers ==> y.walkers[id].w == x.walkers[id].w)
      && (!a.Store? && !a.Recount? ==> y.cache == x.cache)
  {
    hide CanIterate, CanSkip, CanFinish, Iterated, Skipped, Insert;
    match a
    case Iterate(id) => SameWalk(x.walkers[id]);
    case Skip(id) => SkippedSameWalk(x.cache, shardOf, x.walkers[id]);
    case _ =>
  }

  /** The counter means nothing to coherence. */
  lemma RecountCoherent(m: PriceMath, x: World, total: nat)
    requires Coherent(m, x)
    ensures Coherent(m, x.(cache := x.cache.(total := total)))
  {
    hide Lawful, Sound;
    var y := x.(cache := x.cache.(total := total));
    assert PoolArcs(y) == PoolArcs(x) && ChainArcs(y) == ChainArcs(x);
  }

  lemma ProceedKeeps(m: PriceMath, shardOf: RunKey -> nat, x: Process, a: Action)
    requires Orderly(m, x) && Possible(m, shardOf, x, Proceed(a))
    ensures Orderly(m, Next(m, shardOf, x, Proceed(a)))
  {
    hide Coherent, Inv, Enabled, Act;
    ActKeepsInv(m, shardOf, x.Walks(), a);
    ActKeepsWalks(m, shardOf, x.Walks(), a);
    PresentWalks(x);
    var y := Next(m, shardOf, x, Proceed(a));
    assert y.Walks() == Act(m, shardOf, x.Walks(), a);
    StepCoherent(m, shardOf, x, a);
  }

  lemma StepCoherent(m: PriceMath, shardOf: RunKey -> nat, x: Process, a: Action)
    requires Orderly(m, x) && Possible(m, shardOf, x, Proceed(a))
    ensures Coherent(m, World(x.pools, Act(m, shardOf, x.Walks(), a).cache))
  {
    hide Coherent, Inv, CanIterate, CanSkip, CanFinish, Iterated, Skipped, Insert;
    ActKeepsWalks(m, shardOf, x.Walks(), a);
    PresentWalks(x);
    if a.Store? {
      StoreIsCached(m, shardOf, x.Pools(), x.Walks(), a.id, x.on[a.id]);
    } else if a.Recount? {
      RecountCoherent(m, x.Pools(), a.total);
    }
  }

  /** A pool that nobody walks may change: no walk and no recording of one notices. */
  lemma ChangeKeeps(m: PriceMath, shardOf: RunKey -> nat, x: Process, op: Op)
    requires Orderly(m, x) && Possible(m, shardOf, x, Change(op))
    ensures Orderly(m, Next(m, shardOf, x, Change(op)))
  {
    hide Coherent, Inv;
    OpKeepsCoherent(m, x.Pools(), op);
    OthersStay(m, x.Pools(), op);
    var y := Next(m, shardOf, x, Change(op));
    assert y.Pools() == After(m, x.Pools(), op);
    assert y.Walks() == x.Walks();
    forall id | id in y.walkers ensures y.on[id] in y.pools && y.walkers[id].w.pool == y.pools[y.on[id]] {
      assert x.on[id] in x.on.Values;
    }
  }

  /** An operation changes one pool, as it says, and leaves the others and the cache alone. */
  lemma OthersStay(m: PriceMath, x: World, op: Op)
    requires Allowed(m, x, op) && !op.Cached?
    ensures After(m, x, op).cache == x.cache
    ensures forall id :: id in x.pools && id != Changed(op) ==>
              id in After(m, x, op).pools && After(m, x, op).pools[id] == x.pools[id]
    ensures
      var pools := After(m, x, op).pools;
      match op
      case Write(id, words, _) => id in pools && pools[id] == x.pools[id].(arc := Arc(pools[id].arc.ptr, words))
      case Add(id, p) => id in pools && pools[id] == p
      case Share(_, to, p) => to in pools && pools[to] == p
      case Drop(id) => id !in pools
      case Cached(_, _) => true
  {
    hide StrongCount, Live;
  }

  /** Every event, of any walk or pool, keeps the whole process in order. */
  lemma NextKeepsInv(m: PriceMath, shardOf: RunKey -> nat, x: Process, e: Event)
    requires Orderly(m, x) && Possible(m, shardOf, x, e)
    ensures Orderly(m, Next(m, shardOf, x, e))
  {
    hide Orderly;
    match e
    case Enter(_, _, _, _, _, _, _, _) => EnterKeeps(m, shardOf, x, e);
    case Proceed(a) => ProceedKeeps(m, shardOf, x, a);
    case Change(op) => ChangeKeeps(m, shardOf, x, op);
  }

  // ---- Whole runs ----

  ghost predicate Happens(m: PriceMath, shardOf: RunKey -> nat, x: Process, events: seq<Event>)
    decreases |events|
  {
    events == [] ||
    (Possible(m, shardOf, x, events[0]) && Happens(m, shardOf, Next(m, shardOf, x, events[0]), events[1..]))
  }

  ghost function Finally(m: PriceMath, shardOf: RunKey -> nat, x: Process, events: seq<Event>): Process
    requires Happens(m, shardOf, x, events)
    decreases |events|
  {
    if events == [] then x else Finally(m, shardOf, Next(m, shardOf, x, events[0]), events[1..])
  }

  lemma {:induction false} HappensKeepsInv(m: PriceMath, shardOf: RunKey -> nat, x: Process, events: seq<Event>)
    requires Orderly(m, x) && Happens(m, shardOf, x, events)
    ensures Orderly(m, Finally(m, shardOf, x, events))
    decreases |events|
  {
    hide Orderly, Possible, Next;
    if events != [] {
      NextKeepsInv(m, shardOf, x, events[0]);
      HappensKeepsInv(m, shardOf, Next(m, shardOf, x, events[0]), events[1..]);
    }
  }

  /** No pools, no walks, an empty cache. */
  function Empty(): Process {
    Process(map[], map[], map[], Nothing().cache)
  }

  /**
   The jump table is invisible. Whatever happens to pools, walks and cache from the start, every walk
   under way is where the plain loop over its pool's present bitmap is after the iterations it has
   covered, and one at its end has the plain loop's result.
   */
  lemma EveryQuoteExact(m: PriceMath, shardOf: RunKey -> nat, events: seq<Event>, id: nat)
    requires Lawful(m) && Happens(m, shardOf, Empty(), events)
    requires id in Finally(m, shardOf, Empty(), events).walkers
    ensures
      var x := Finally(m, shardOf, Empty(), events);
      var k := x.walkers[id];
      && id in x.on && x.on[id] in x.pools && k.w.pool == x.pools[x.on[id]] && k.w.pool.Valid()
      && RunsTo(k.w, Start(k.w, k.amountIn), k.covered, k.s)
      && (Done(k.w, k.s) || Body(k.w, k.s).Err? ==>
            Halts(k.w, Start(k.w, k.amountIn)) && Outcome(k.w, Start(k.w, k.amountIn)) == Returned(k.w, k.s))
  {
    hide Body, RunsTo, Happens, Finally, Coherent, OwnInv;
    EmptyInv(m);
    HappensKeepsInv(m, shardOf, Empty(), events);
    OwnExact(m, Finally(m, shardOf, Empty(), events).walkers[id]);
  }

  lemma EmptyInv(m: PriceMath)
    requires Lawful(m)
    ensures Orderly(m, Empty())
  {
    hide Lawful;
    assert Coherent(m, Nothing());
  }

  /**
   And so every quote keeps liquidity, tick and price together and pays no more than its input is worth
   at the price of its pool, if the pool's bitmap, ticks and liquidity agree and its limit lies ahead.
   */
  lemma EveryQuotePlaced(m: PriceMath, shardOf: RunKey -> nat, events: seq<Event>, id: nat)
    requires Lawful(m) && Happens(m, shardOf, Empty(), events)
    requires id in Finally(m, shardOf, Empty(), events).walkers
    ensures
      var k := Finally(m, shardOf, Empty(), events).walkers[id];
      k.amountIn < TWO255 && k.w.Valid()
    ensures
      var k := Finally(m, shardOf, Empty(), events).walkers[id];
      Sane(k.w) && Fair(m) && Placed(k.w, Start(k.w, k.amountIn)) ==>
        && Placed(k.w, k.s) && k.s.remaining <= k.amountIn
        && NoBetter(k.w.zeroForOne, k.w.pool.sqrtPrice * k.w.pool.sqrtPrice, k.amountIn - k.s.remaining, k.s.amountOut)
  {
    hide Body, RunsTo, Happens, Finally, Coherent, Placed, Agree, Balanced, Placing, Fair, NoBetter, Lawful;
    EmptyInv(m);
    HappensKeepsInv(m, shardOf, Empty(), events);
    var k := Finally(m, shardOf, Empty(), events).walkers[id];
    OwnFacts(m, k);
    var s := Start(k.w, k.amountIn);
    if Sane(k.w) && Fair(m) && Placed(k.w, s) {
      RunKeepsPlaced(k.w, s, k.covered, k.s);
      NeverBetterThanStart(k.w, s, k.covered, k.s);
    }
  }

  lemma OwnFacts(m: PriceMath, k: Walker)
    requires OwnInv(m, k) && Lawful(m)
    ensures k.w.math == m && k.w.Valid() && k.amountIn < TWO255 && Start(k.w, k.amountIn).Valid()
    ensures RunsTo(k.w, Start(k.w, k.amountIn), k.covered, k.s)
  {
    hide Body;
  }

  // ---- Nothing is stuck ----

  /** The action is possible, and covers n more iterations of walk id. */
  ghost predicate Covers(m: PriceMath, shardOf: RunKey -> nat, x: Process, a: Action, id: nat, n: nat) {
    && Possible(m, shardOf, x, Proceed(a)) && id in x.walkers
    && var y := Next(m, shardOf, x, Proceed(a));
       id in y.walkers && y.walkers[id].w == x.walkers[id].w && y.walkers[id].covered == x.walkers[id].covered + n
  }

  /** A walk under way can always go on: it may store what waits for the lock, or else run its next iteration. */
  lemma NeverStuck(m: PriceMath, shardOf: RunKey -> nat, x: Process, id: nat)
    requires Orderly(m, x) && id in x.walkers && forall k :: shardOf(k) < |x.cache.shards|
    ensures x.walkers[id].w.pool.Valid()
    ensures x.walkers[id].pending.Some? ==> Covers(m, shardOf, x, Store(id), id, 0)
    ensures
      var k := x.walkers[id];
      k.pending.None? && !Done(k.w, k.s) && Body(k.w, k.s).Ok? ==> Covers(m, shardOf, x, Iterate(id), id, 1)
  {
    hide Body, Coherent, Insert, Observed, RunsTo, Tracks;
    assert OwnInv(m, x.walkers[id]);
  }

  /** And it may take the jump the cache holds for it at this moment, as far as that one goes. */
  lemma MayAlwaysJump(m: PriceMath, shardOf: RunKey -> nat, x: Process, id: nat, jump: Jump)
    requires Orderly(m, x) && id in x.walkers && forall k :: shardOf(k) < |x.cache.shards|
    requires x.walkers[id].pending.None? && x.walkers[id].r.active && x.walkers[id].w.pool.Valid()
    requires
      var k := x.walkers[id];
      var key := KeyOf(k.w, k.s.liquidity);
      && MayJump(k.w, k.s.liquidity) && key in x.cache.shards[shardOf(key)]
      && OfferTo(x.cache.shards[shardOf(key)][key], k.w, k.s) == Some(jump)
    ensures Covers(m, shardOf, x, Skip(id), id, jump.steps)
  {
    hide Body, Coherent, JumpOf, Insert, Observed, RunsTo, Tracks;
    var k := x.walkers[id];
    assert OwnInv(m, k);
    CachedJumpIsRun(k.w, x.cache, x.cache, shardOf(KeyOf(k.w, k.s.liquidity)), k.s);
  }

  /** A walk may begin on any pool under any free id, and an unwalked pool may be dropped or replaced. */
  lemma NothingBarred(m: PriceMath, shardOf: RunKey -> nat, x: Process, id: nat, pool: nat, e: Event)
    requires Orderly(m, x) && pool in x.pools
    ensures e.Enter? && e.id !in x.walkers && e.pool == pool && e.amountIn < TWO255 ==> Possible(m, shardOf, x, e)
    ensures (forall w :: w in x.on ==> x.on[w] != pool) ==> Possible(m, shardOf, x, Change(Drop(pool)))
    ensures forall p: Pool :: p.Valid() && p.arc == x.pools[pool].arc && (forall w :: w in x.on ==> x.on[w] != id) ==>
              Possible(m, shardOf, x, Change(Share(pool, id, p)))
  {
    hide Coherent, Inv, OnPresentPools;
  }
}
