/**
 Pools and cached chains share bitmaps by reference count. A pool writes its bitmap in place only
 when nobody else holds it, and otherwise moves to a new allocation; a freed address may be used
 again. This makes the address in a key a version of the bitmap, over every run of the system.
 */
module PoolSpace {
  import opened Wrappers
  import opened SwapMath
  import opened TickBitmap
  import opened ReferenceWalk
  import opened SpanChains
  import opened SpanCaches
  import opened SpanWalk

  datatype World = World(pools: map<nat, Pool>, cache: CacheView)

  ghost function PoolArcs(x: World): set<Arc> {
    set id | id in x.pools :: x.pools[id].arc
  }

  ghost function ChainArcs(x: World): set<Arc> {
    set i, k | 0 <= i < |x.cache.shards| && k in x.cache.shards[i] :: x.cache.shards[i][k].bitmap
  }

  ghost predicate Live(x: World, ptr: nat) {
    exists a :: a in PoolArcs(x) + ChainArcs(x) && a.ptr == ptr
  }

  /** One allocation has one content. */
  ghost predicate OneContent(arcs: set<Arc>) {
    forall a, b :: a in arcs && b in arcs && a.ptr == b.ptr ==> a == b
  }

  ghost predicate Coherent(m: PriceMath, x: World) {
    && Lawful(m)
    && (forall id :: id in x.pools ==> x.pools[id].Valid())
    && AllSound(m, x.cache)
    && OneContent(PoolArcs(x) + ChainArcs(x))
  }

  /** `Arc::strong_count`: pools and cached chains holding the allocation. */
  ghost function StrongCount(x: World, ptr: nat): nat {
    |PoolHolders(x.pools, ptr)| + |ChainHolders(x, ptr)|
  }

  function PoolHolders(pools: map<nat, Pool>, ptr: nat): set<nat> {
    set id | id in pools && pools[id].arc.ptr == ptr
  }

  ghost function ChainHolders(x: World, ptr: nat): set<(int, RunKey)> {
    set i, k | 0 <= i < |x.cache.shards| && k in x.cache.shards[i] && x.cache.shards[i][k].bitmap.ptr == ptr :: (i, k)
  }

  /** Everything that can happen to the bitmaps. */
  datatype Op =
    | Write(id: nat, words: Bitmap, newPtr: nat) // a bitmap write through `Arc::make_mut`
    | Add(id: nat, pool: Pool)                   // a pool with a bitmap of its own
    | Share(id: nat, to: nat, pool: Pool)        // a copy of a pool, or new prices in place
    | Drop(id: nat)
    | Cached(id: nat, cache: CacheView)          // a walk of a pool published or evicted chains

  /** The allocator hands out addresses nobody holds; walks only grow the cache soundly. */
  ghost predicate Allowed(m: PriceMath, x: World, op: Op) {
    match op
    case Write(id, _, newPtr) => id in x.pools && !Live(x, newPtr)
    case Add(_, p) => p.Valid() && !Live(x, p.arc.ptr)
    case Share(id, _, p) => id in x.pools && p.Valid() && p.arc == x.pools[id].arc
    case Drop(_) => true
    case Cached(id, v) => id in x.pools && AllSound(m, v) && Grown(x.cache, v, x.pools[id].arc)
  }

  ghost function After(m: PriceMath, x: World, op: Op): World
    requires Allowed(m, x, op)
  {
    match op
    case Write(id, words, newPtr) => Written(x, id, words, newPtr)
    case Add(id, p) => x.(pools := x.pools[id := p])
    case Share(_, to, p) => x.(pools := x.pools[to := p])
    case Drop(id) => x.(pools := x.pools - {id})
    case Cached(_, v) => x.(cache := v)
  }

  /** In place for the only holder, else into the new allocation. */
  ghost function Written(x: World, id: nat, words: Bitmap, newPtr: nat): World
    requires id in x.pools
  {
    var p := x.pools[id];
    var arc := Arc(if StrongCount(x, p.arc.ptr) == 1 then p.arc.ptr else newPtr, words);
    x.(pools := x.pools[id := p.(arc := arc)])
  }

  lemma SoleHolder(x: World, id: nat, a: Arc)
    requires id in x.pools && StrongCount(x, x.pools[id].arc.ptr) == 1
    requires a.ptr == x.pools[id].arc.ptr
    ensures a !in ChainArcs(x)
    ensures forall j :: j in x.pools && j != id ==> x.pools[j].arc.ptr != a.ptr
  {
    var ptr := x.pools[id].arc.ptr;
    var hs := PoolHolders(x.pools, ptr);
    assert id in hs;
    assert hs == {id} by {
      assert |hs - {id}| == 0;
    }
    assert ChainHolders(x, ptr) == {};
    forall i, k | 0 <= i < |x.cache.shards| && k in x.cache.shards[i] ensures x.cache.shards[i][k].bitmap.ptr != ptr {
      assert (i, k) !in ChainHolders(x, ptr);
    }
    forall j | j in x.pools && x.pools[j].arc.ptr == ptr ensures j == id {
      assert j in hs;
    }
  }

  /** A write keeps every allocation at one content: an address never comes to mean other words. */
  lemma WriteKeepsContent(x: World, id: nat, words: Bitmap, newPtr: nat)
    requires id in x.pools && !Live(x, newPtr)
    requires OneContent(PoolArcs(x) + ChainArcs(x))
    ensures OneContent(PoolArcs(Written(x, id, words, newPtr)) + ChainArcs(Written(x, id, words, newPtr)))
  {
    var y := Written(x, id, words, newPtr);
    var p := x.pools[id];
    var arc := y.pools[id].arc;
    assert ChainArcs(y) == ChainArcs(x);
    forall a | a in PoolArcs(y) + ChainArcs(y) && a != arc
      ensures a in PoolArcs(x) + ChainArcs(x) && a.ptr != arc.ptr
    {
      if a in PoolArcs(y) {
        var j :| j in y.pools && y.pools[j].arc == a;
        assert x.pools[j].arc == a;
      }
      if StrongCount(x, p.arc.ptr) == 1 && a.ptr == p.arc.ptr {
        SoleHolder(x, id, a);
      }
    }
  }

  /** Nobody but pool `id` holds its allocation: no other pool and no cached chain. */
  ghost predicate Alone(x: World, id: nat)
    requires id in x.pools
  {
    && (forall j :: j in x.pools && j != id ==> x.pools[j].arc.ptr != x.pools[id].arc.ptr)
    && forall i, k :: 0 <= i < |x.cache.shards| && k in x.cache.shards[i] ==>
         x.cache.shards[i][k].bitmap.ptr != x.pools[id].arc.ptr
  }

  /**
   Copy on write, exactly: the pool gets the new words, at its old address if and only if nobody else
   holds that one, and everything else stays as it was.
   */
  lemma WriteExactly(x: World, id: nat, words: Bitmap, newPtr: nat)
    requires id in x.pools && !Live(x, newPtr)
    ensures
      var p := x.pools[id];
      var y := Written(x, id, words, newPtr);
      && y.cache == x.cache && y.pools.Keys == x.pools.Keys
      && (forall j :: j in x.pools && j != id ==> y.pools[j] == x.pools[j])
      && y.pools[id] == p.(arc := y.pools[id].arc) && y.pools[id].arc.words == words
      && (y.pools[id].arc.ptr == p.arc.ptr <==> Alone(x, id))
      && (!Alone(x, id) ==> y.pools[id].arc.ptr == newPtr)
  {
    var p := x.pools[id];
    assert p.arc in PoolArcs(x);
    if Alone(x, id) {
      assert PoolHolders(x.pools, p.arc.ptr) == {id};
      assert ChainHolders(x, p.arc.ptr) == {};
    } else if StrongCount(x, p.arc.ptr) == 1 {
      SoleHolder(x, id, p.arc);
      forall i, k | 0 <= i < |x.cache.shards| && k in x.cache.shards[i]
        ensures x.cache.shards[i][k].bitmap.ptr != p.arc.ptr
      {
        SoleHolder(x, id, Arc(p.arc.ptr, x.cache.shards[i][k].bitmap.words));
      }
    }
  }

  lemma GrownArcs(x: World, v: CacheView, id: nat)
    requires id in x.pools && Grown(x.cache, v, x.pools[id].arc)
    ensures ChainArcs(x.(cache := v)) <= PoolArcs(x) + ChainArcs(x)
  {
    var y := x.(cache := v);
    forall a | a in ChainArcs(y) ensures a in PoolArcs(x) + ChainArcs(x) {
      var i, k :| 0 <= i < |v.shards| && k in v.shards[i] && v.shards[i][k].bitmap == a;
      assert a == x.pools[id].arc || (k in x.cache.shards[i] && x.cache.shards[i][k].bitmap == a);
    }
  }

  lemma AddedArcs(x: World, id: nat, p: Pool)
    ensures PoolArcs(x.(pools := x.pools[id := p])) <= PoolArcs(x) + {p.arc}
    ensures ChainArcs(x.(pools := x.pools[id := p])) == ChainArcs(x)
  {
    var y := x.(pools := x.pools[id := p]);
    forall a | a in PoolArcs(y) && a != p.arc ensures a in PoolArcs(x) {
      var j :| j in y.pools && y.pools[j].arc == a;
      assert x.pools[j].arc == a;
    }
  }

  /** Every operation keeps each allocation at one content. */
  lemma OpKeepsContent(m: PriceMath, x: World, op: Op)
    requires Allowed(m, x, op) && OneContent(PoolArcs(x) + ChainArcs(x))
    ensures OneContent(PoolArcs(After(m, x, op)) + ChainArcs(After(m, x, op)))
  {
    hide AllSound, Grown, StrongCount, PoolArcs, ChainArcs, OneContent;
    match op
    case Write(id, words, newPtr) => WriteKeepsContent(x, id, words, newPtr);
    case Add(id, p) => AddKeepsContent(x, id, p);
    case Share(id, to, p) => ShareKeepsContent(x, id, to, p);
    case Drop(id) => DropKeepsContent(x, id);
    case Cached(id, v) => GrownKeepsContent(x, v, id);
  }

  lemma AddKeepsContent(x: World, id: nat, p: Pool)
    requires !Live(x, p.arc.ptr) && OneContent(PoolArcs(x) + ChainArcs(x))
    ensures var y := x.(pools := x.pools[id := p]); OneContent(PoolArcs(y) + ChainArcs(y))
  {
    AddedArcs(x, id, p);
  }

  lemma ShareKeepsContent(x: World, id: nat, to: nat, p: Pool)
    requires id in x.pools && p.arc == x.pools[id].arc && OneContent(PoolArcs(x) + ChainArcs(x))
    ensures var y := x.(pools := x.pools[to := p]); OneContent(PoolArcs(y) + ChainArcs(y))
  {
    AddedArcs(x, to, p);
  }

  lemma DropKeepsContent(x: World, id: nat)
    requires OneContent(PoolArcs(x) + ChainArcs(x))
    ensures var y := x.(pools := x.pools - {id}); OneContent(PoolArcs(y) + ChainArcs(y))
  {
    var y := x.(pools := x.pools - {id});
    assert PoolArcs(y) <= PoolArcs(x);
    assert ChainArcs(y) == ChainArcs(x);
  }

  lemma GrownKeepsContent(x: World, v: CacheView, id: nat)
    requires id in x.pools && Grown(x.cache, v, x.pools[id].arc) && OneContent(PoolArcs(x) + ChainArcs(x))
    ensures var y := x.(cache := v); OneContent(PoolArcs(y) + ChainArcs(y))
  {
    GrownArcs(x, v, id);
    assert PoolArcs(x.(cache := v)) == PoolArcs(x);
  }

  /** Every operation keeps the system coherent. */
  lemma OpKeepsCoherent(m: PriceMath, x: World, op: Op)
    requires Coherent(m, x) && Allowed(m, x, op)
    ensures Coherent(m, After(m, x, op))
  {
    hide Lawful, AllSound, Grown, StrongCount, PoolArcs, ChainArcs, OneContent;
    OpKeepsContent(m, x, op);
  }

  /** The operations are allowed one after the other. */
  ghost predicate Run(m: PriceMath, x: World, ops: seq<Op>)
    decreases |ops|
  {
    ops == [] || (Allowed(m, x, ops[0]) && Run(m, After(m, x, ops[0]), ops[1..]))
  }

  ghost function AfterRun(m: PriceMath, x: World, ops: seq<Op>): World
    requires Run(m, x, ops)
    decreases |ops|
  {
    if ops == [] then x else AfterRun(m, After(m, x, ops[0]), ops[1..])
  }

  /** Over every run of writes, copies, drops, publications and evictions the system stays coherent. */
  lemma {:induction false} RunKeepsCoherent(m: PriceMath, x: World, ops: seq<Op>)
    requires Coherent(m, x) && Run(m, x, ops)
    ensures Coherent(m, AfterRun(m, x, ops))
    decreases |ops|
  {
    hide Coherent, Allowed, After;
    if ops != [] {
      OpKeepsCoherent(m, x, ops[0]);
      RunKeepsCoherent(m, After(m, x, ops[0]), ops[1..]);
    }
  }

  /** The system at its start: no pools, an empty cache. */
  function Nothing(): World {
    World(map[], CacheView(seq(SHARD_COUNT, _ => map[]), 0))
  }

  /** From the start, every run leaves the system coherent. */
  lemma RunsFromNothing(m: PriceMath, ops: seq<Op>)
    requires Lawful(m) && Run(m, Nothing(), ops)
    ensures Coherent(m, Nothing()) && Coherent(m, AfterRun(m, Nothing(), ops))
  {
    RunKeepsCoherent(m, Nothing(), ops);
  }

  /** A cached key that matches a pool's address was recorded under the words the pool has now. */
  lemma HitIsCurrent(m: PriceMath, x: World, id: nat)
    requires Coherent(m, x) && id in x.pools
    ensures Anchored(x.cache, x.pools[id].arc)
    ensures forall i, k :: 0 <= i < |x.cache.shards| && k in x.cache.shards[i] ==> Live(x, k.bitmapPtr)
  {
    hide Lawful, Follows, Arrival;
    var arc := x.pools[id].arc;
    assert arc in PoolArcs(x);
    forall i, k | 0 <= i < |x.cache.shards| && k in x.cache.shards[i]
      ensures Live(x, k.bitmapPtr)
      ensures k.bitmapPtr == arc.ptr ==> x.cache.shards[i][k].bitmap == arc
    {
      assert Sound(m, k, x.cache.shards[i][k]);
      assert x.cache.shards[i][k].bitmap in ChainArcs(x);
    }
  }

  /** The pools of a process and the one cache they share. */
  class AmmState {
    const math: PriceMath
    const cache: SpanCache
    var pools: map<nat, Pool>

    ghost function Now(): World
      reads this, cache
    {
      World(pools, cache.view)
    }

    ghost predicate Valid()
      reads this, cache, cache.repr
    {
      cache.Valid() && Coherent(math, Now())
    }

    constructor (math: PriceMath, enabled: bool, shardOf: RunKey -> nat)
      requires Lawful(math) && forall k :: shardOf(k) < SHARD_COUNT
      ensures Valid() && pools == map[] && this.math == math && fresh(cache)
      ensures cache.repr == {} && cache.view == CacheView(seq(SHARD_COUNT, _ => map[]), 0)
      ensures cache.enabled == enabled && cache.shardOf == shardOf
    {
      this.math := math;
      this.cache := new SpanCache(enabled, shardOf);
      this.pools := map[];
    }

    /** An exact-in quote on a pool, through recorder and jump table: exactly the plain loop's result. */
    method Swap(id: nat, zeroForOne: bool, amountIn: nat, limit: nat, needsLiquidity: bool,
                stopsInVoid: bool, useTable: bool) returns (res: Result<WalkState>)
      requires Valid() && id in pools && amountIn < TWO255
      requires var w := Walk(math, pools[id], zeroForOne, limit, needsLiquidity, stopsInVoid);
               Halts(w, Start(w, amountIn))
      modifies cache, cache.repr
      ensures Valid() && pools == old(pools) && fresh(cache.repr - old(cache.repr))
      ensures Allowed(math, old(Now()), Cached(id, cache.view))
      ensures Now() == After(math, old(Now()), Cached(id, cache.view))
      ensures var w := Walk(math, pools[id], zeroForOne, limit, needsLiquidity, stopsInVoid);
              res == Outcome(w, Start(w, amountIn))
    {
      hide Lawful, AllSound, SpanCache.Valid, Outcome;
      var w := Walk(math, pools[id], zeroForOne, limit, needsLiquidity, stopsInVoid);
      ghost var x := Now();
      HitIsCurrent(math, x, id);
      var loops;
      ghost var last;
      res, loops, last := SpanWalk.Run(w, amountIn, useTable, cache);
      OpKeepsCoherent(math, x, Cached(id, cache.view));
    }

    /** `strong_count` of the allocation at `ptr`. */
    method CountHolders(ptr: nat) returns (n: nat)
      requires Valid()
      ensures n == StrongCount(Now(), ptr)
    {
      hide Coherent, WithinBudget;
      var chains :=
        set i, k | 0 <= i < |cache.shards| && k in cache.shards[i] && cache.shards[i][k].bitmap.ptr == ptr :: (i, k);
      forall i, k | 0 <= i < |cache.shards| && k in cache.shards[i]
        ensures cache.shards[i][k].bitmap == cache.view.shards[i][k].bitmap
      {
        assert cache.Fits(cache.shards[i][k], i, k, cache.view.shards[i][k]);
      }
      assert chains == ChainHolders(Now(), ptr);
      n := |PoolHolders(pools, ptr)| + |chains|;
    }

    /** A pool replaces the words of its bitmap; `newPtr` is the address the allocator offers. */
    method WriteBitmap(id: nat, words: Bitmap, newPtr: nat)
      requires Valid() && id in pools && !Live(Now(), newPtr)
      modifies this
      ensures Valid() && Now() == Written(old(Now()), id, words, newPtr)
    {
      hide Coherent, SpanCache.Valid, StrongCount;
      ghost var x := Now();
      var p := pools[id];
      var count := CountHolders(p.arc.ptr);
      var ptr := if count == 1 then p.arc.ptr else newPtr;
      pools := pools[id := p.(arc := Arc(ptr, words))];
      OpKeepsCoherent(math, x, Write(id, words, newPtr));
    }

    /** A new pool gets an allocation nobody holds; its address may have been used before. */
    method AddPool(id: nat, p: Pool)
      requires Valid() && p.Valid() && !Live(Now(), p.arc.ptr)
      modifies this
      ensures Valid() && Now() == After(math, old(Now()), Add(id, p))
    {
      hide Coherent, SpanCache.Valid;
      OpKeepsCoherent(math, Now(), Add(id, p));
      pools := pools[id := p];
    }

    /** A pool that shares the bitmap of `id`: a copy, or the same pool at new prices. */
    method SharePool(id: nat, to: nat, p: Pool)
      requires Valid() && id in pools && p.Valid() && p.arc == pools[id].arc
      modifies this
      ensures Valid() && Now() == After(math, old(Now()), Share(id, to, p))
    {
      hide Coherent, SpanCache.Valid;
      OpKeepsCoherent(math, Now(), Share(id, to, p));
      pools := pools[to := p];
    }

    method DropPool(id: nat)
      requires Valid()
      modifies this
      ensures Valid() && Now() == old(Now()).(pools := old(pools) - {id})
    {
      hide Coherent, SpanCache.Valid;
      OpKeepsCoherent(math, Now(), Drop(id));
      pools := pools - {id};
    }
  }
}
