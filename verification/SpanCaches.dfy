/**
 The sharded cache of chains with its step budget: `InsertOrExtend` on values with the properties
 it keeps, and the class that does it in place.
 */
module SpanCaches {
  import opened Wrappers
  import opened SwapMath
  import opened ReferenceWalk
  import opened SpanChains
  import opened SpanTables
  import opened SpanJump
  import opened StepSums

  const SHARD_COUNT: nat := 16
  const MAX_ENTRIES_PER_SHARD: nat := 4
  const MAX_TOTAL_STEPS: nat := 200_000

  type Shard = map<RunKey, Chain>

  datatype CacheView = CacheView(shards: seq<Shard>, total: nat)

  ghost function Lens(g: Shard): map<RunKey, nat> {
    map k | k in g :: |g[k].steps|
  }

  ghost function AllLens(shards: seq<Shard>): seq<map<RunKey, nat>> {
    seq(|shards|, i requires 0 <= i < |shards| => Lens(shards[i]))
  }

  /** A full shard has no room for a key it does not hold. */
  predicate Evicts(g: Shard, key: RunKey) {
    |g| >= MAX_ENTRIES_PER_SHARD && key !in g
  }

  /** The cache after making room for a key: a shard that has none is emptied. */
  ghost function MakeRoom(v: CacheView, i: nat, key: RunKey): CacheView
    requires i < |v.shards|
  {
    if Evicts(v.shards[i], key)
    then CacheView(v.shards[i := map[]], v.total - Min(SumOf(Lens(v.shards[i])), v.total))
    else v
  }

  /** Stores a chain under a key, within the budget. */
  function Reserve(v: CacheView, i: nat, key: RunKey, c: Chain, added: nat): CacheView
    requires i < |v.shards|
  {
    if v.total + added > MAX_TOTAL_STEPS then v
    else CacheView(v.shards[i := v.shards[i][key := c]], v.total + added)
  }

  /** `insert_or_extend`: a new entry, the extension of an overlapping one, or nothing. */
  ghost function Insert(v: CacheView, i: nat, key: RunKey, c: Chain): CacheView
    requires i < |v.shards|
  {
    var v := MakeRoom(v, i, key);
    if key !in v.shards[i] then Reserve(v, i, key, c, |c.steps|)
    else
      var existing := v.shards[i][key];
      match FirstBoundary(existing, c.firstTick, 0)
      case None => v
      case Some(start) =>
        var covered := |existing.steps| - start;
        if |c.steps| <= covered then v
        else Reserve(v, i, key, Merged(existing, start, c.steps), |c.steps| - covered)
  }

  // ---- What the cache keeps ----

  /** Every stored chain is sound for its key. */
  ghost predicate AllSound(m: PriceMath, v: CacheView) {
    forall i, k :: 0 <= i < |v.shards| && k in v.shards[i] ==> Sound(m, k, v.shards[i][k])
  }

  /** Chains stored under the address of `bitmap` were recorded under that very bitmap. */
  ghost predicate Anchored(v: CacheView, bitmap: Arc) {
    forall i, k :: 0 <= i < |v.shards| && k in v.shards[i] && k.bitmapPtr == bitmap.ptr ==>
      v.shards[i][k].bitmap == bitmap
  }

  /** The counter is the number of stored steps, within the budget, and no shard is overfull. */
  ghost predicate WithinBudget(v: CacheView) {
    && v.total == SumAll(AllLens(v.shards)) <= MAX_TOTAL_STEPS
    && forall i :: 0 <= i < |v.shards| ==> |v.shards[i]| <= MAX_ENTRIES_PER_SHARD
  }

  /** Every chain of `u` is one of `v`, possibly longer, or is recorded under `bitmap`. */
  ghost predicate Grown(v: CacheView, u: CacheView, bitmap: Arc) {
    && |u.shards| == |v.shards|
    && forall i, k :: 0 <= i < |u.shards| && k in u.shards[i] ==>
         || u.shards[i][k].bitmap == bitmap
         || (k in v.shards[i] && u.shards[i][k].bitmap == v.shards[i][k].bitmap)
  }

  /** Entries present before and after only got longer. */
  ghost predicate Lengthens(v: CacheView, u: CacheView)
    requires |u.shards| == |v.shards|
  {
    forall i, k :: 0 <= i < |v.shards| && k in v.shards[i] && k in u.shards[i] ==>
      && v.shards[i][k].steps <= u.shards[i][k].steps
      && u.shards[i][k] == v.shards[i][k].(steps := u.shards[i][k].steps)
  }

  lemma LensUpdate(g: Shard, key: RunKey, c: Chain)
    ensures Lens(g[key := c]) == Lens(g)[key := |c.steps|]
  {
  }

  lemma AllLensUpdate(shards: seq<Shard>, i: nat, g: Shard)
    requires i < |shards|
    ensures AllLens(shards[i := g]) == AllLens(shards)[i := Lens(g)]
  {
  }

  /** Replacing a shard changes the total by the difference of the two sums. */
  lemma TotalAfter(v: CacheView, i: nat, g: Shard)
    requires i < |v.shards|
    ensures SumAll(AllLens(v.shards[i := g])) + SumOf(Lens(v.shards[i])) == SumAll(AllLens(v.shards)) + SumOf(Lens(g))
    ensures SumOf(Lens(v.shards[i])) <= SumAll(AllLens(v.shards))
  {
    AllLensUpdate(v.shards, i, g);
    SumAllUpdate(AllLens(v.shards), i, Lens(g));
  }

  lemma MakeRoomBudget(v: CacheView, i: nat, key: RunKey)
    requires i < |v.shards| && WithinBudget(v)
    ensures WithinBudget(MakeRoom(v, i, key))
    ensures key in MakeRoom(v, i, key).shards[i] || |MakeRoom(v, i, key).shards[i]| < MAX_ENTRIES_PER_SHARD
  {
    TotalAfter(v, i, map[]);
    assert Lens(map[]) == map[];
  }

  lemma ReserveBudget(v: CacheView, i: nat, key: RunKey, c: Chain, added: nat)
    requires i < |v.shards| && WithinBudget(v)
    requires |c.steps| == added + (if key in v.shards[i] then |v.shards[i][key].steps| else 0)
    requires key in v.shards[i] || |v.shards[i]| < MAX_ENTRIES_PER_SHARD
    ensures WithinBudget(Reserve(v, i, key, c, added))
  {
    hide SumAll, SumOf, Lens, AllLens;
    var g := v.shards[i][key := c];
    StoredTotal(v, i, key, c);
    ShardGrowth(v.shards[i], key, c);
  }

  lemma ShardGrowth(g: Shard, key: RunKey, c: Chain)
    ensures |g[key := c]| == |g| + (if key in g then 0 else 1)
  {
    assert g[key := c].Keys == g.Keys + {key};
  }

  lemma StoredTotal(v: CacheView, i: nat, key: RunKey, c: Chain)
    requires i < |v.shards|
    ensures SumAll(AllLens(v.shards[i := v.shards[i][key := c]]))
            + (if key in v.shards[i] then |v.shards[i][key].steps| else 0)
            == SumAll(AllLens(v.shards)) + |c.steps|
  {
    hide SumAll, SumOf, AllLens;
    TotalAfter(v, i, v.shards[i][key := c]);
    LensUpdate(v.shards[i], key, c);
    SumUpdate(Lens(v.shards[i]), key, |c.steps|);
  }

  /** Inserting conserves the budget: the counter still counts exactly the stored steps. */
  lemma InsertKeepsBudget(v: CacheView, i: nat, key: RunKey, c: Chain)
    requires i < |v.shards| && WithinBudget(v)
    ensures WithinBudget(Insert(v, i, key, c))
  {
    hide WithinBudget;
    MakeRoomBudget(v, i, key);
    var r := MakeRoom(v, i, key);
    if key !in r.shards[i] {
      ReserveBudget(r, i, key, c, |c.steps|);
    } else {
      var existing := r.shards[i][key];
      var b := FirstBoundary(existing, c.firstTick, 0);
      if b.Some? && |c.steps| > |existing.steps| - b.value {
        ReserveBudget(r, i, key, Merged(existing, b.value, c.steps), |c.steps| - (|existing.steps| - b.value));
      }
    }
  }

  /** Inserting a sound recording keeps every chain sound, whether it is stored, merged or dropped. */
  lemma InsertKeepsSound(m: PriceMath, v: CacheView, i: nat, key: RunKey, c: Chain)
    requires Lawful(m) && i < |v.shards| && AllSound(m, v) && Sound(m, key, c) && Anchored(v, c.bitmap)
    ensures AllSound(m, Insert(v, i, key, c))
    ensures Grown(v, Insert(v, i, key, c), c.bitmap)
  {
    hide Lawful;
    var r := MakeRoom(v, i, key);
    if key in r.shards[i] {
      var existing := r.shards[i][key];
      assert Sound(m, key, v.shards[i][key]);
      assert existing.bitmap == c.bitmap;
      var b := FirstBoundary(existing, c.firstTick, 0);
      if b.Some? && |c.steps| > |existing.steps| - b.value {
        MergeSound(m, key, existing, c, b.value);
      }
    }
  }

  /** Inserting never shortens or rewrites what an entry already holds. */
  lemma InsertLengthens(v: CacheView, i: nat, key: RunKey, c: Chain)
    requires i < |v.shards|
    ensures Lengthens(v, Insert(v, i, key, c))
  {
    var r := MakeRoom(v, i, key);
    if key in r.shards[i] {
      var existing := r.shards[i][key];
      var b := FirstBoundary(existing, c.firstTick, 0);
      if b.Some? && |c.steps| > |existing.steps| - b.value {
        assert existing.steps <= Merged(existing, b.value, c.steps).steps;
      }
    }
  }

  // ---- What is in the cache afterwards ----

  /** Shard i is full of other keys. */
  predicate FullOfOthers(v: CacheView, i: nat, key: RunKey)
    requires i < |v.shards|
  {
    |v.shards[i]| >= 4 && key !in v.shards[i]
  }

  /** The steps that stay counted: all of them, or all outside a shard that has to be emptied. */
  ghost function StepsKept(v: CacheView, i: nat, key: RunKey): int
    requires i < |v.shards|
  {
    if FullOfOthers(v, i, key) then SumAll(AllLens(v.shards[i := map[]])) else SumAll(AllLens(v.shards))
  }

  /** Of everything but the key itself only a full shard of other keys is lost; nothing else changes. */
  lemma InsertLeavesOthers(v: CacheView, i: nat, key: RunKey, c: Chain)
    requires i < |v.shards|
    ensures
      var u := Insert(v, i, key, c);
      && |u.shards| == |v.shards|
      && (forall j :: 0 <= j < |v.shards| && j != i ==> u.shards[j] == v.shards[j])
      && (forall k :: k != key && !FullOfOthers(v, i, key) ==>
            (k in u.shards[i] <==> k in v.shards[i]) && (k in v.shards[i] ==> u.shards[i][k] == v.shards[i][k]))
      && (FullOfOthers(v, i, key) ==> u.shards[i].Keys <= {key})
  {
  }

  /**
   A recording under a new key is held afterwards, exactly as it was made, if and only if the steps kept
   leave room for it in the budget; either way the counter counts what is held.
   */
  lemma NewKeyExactly(v: CacheView, i: nat, key: RunKey, c: Chain)
    requires i < |v.shards| && WithinBudget(v) && key !in v.shards[i]
    ensures
      var u := Insert(v, i, key, c);
      && (key in u.shards[i] <==> StepsKept(v, i, key) + |c.steps| <= MAX_TOTAL_STEPS)
      && (key in u.shards[i] ==> u.shards[i][key] == c)
      && u.total == StepsKept(v, i, key) + if key in u.shards[i] then |c.steps| else 0
  {
    hide SumAll, AllLens, SumOf;
    TotalAfter(v, i, map[]);
    EmptyLens();
  }

  lemma EmptyLens()
    ensures SumOf(Lens(map[])) == 0
  {
    assert Lens(map[]) == map[];
  }

  /** The recording begins at a boundary of the stored chain and reaches past its end. */
  predicate ReachesPast(e: Chain, c: Chain, start: nat) {
    start <= |e.steps| && e.TickAt(start) == c.firstTick && start + |c.steps| > |e.steps|
  }

  /** The count once the stored chain ends where the recording does. */
  function Extended(v: CacheView, e: Chain, c: Chain, start: nat): int {
    v.total + (start + |c.steps| - |e.steps|)
  }

  /**
   A recording under a stored key extends the chain if and only if it begins at one of its boundaries,
   reaches past its end and the budget allows the new steps. Then the chain reads as before up to that
   boundary and as the recording from there to its end; otherwise nothing changes at all.
   */
  lemma StoredKeyExactly(m: PriceMath, v: CacheView, i: nat, key: RunKey, c: Chain)
    requires Lawful(m) && i < |v.shards| && WithinBudget(v) && key in v.shards[i]
    requires AllSound(m, v) && Sound(m, key, c) && Anchored(v, c.bitmap)
    ensures
      var e := v.shards[i][key];
      var u := Insert(v, i, key, c);
      && (forall start: nat :: ReachesPast(e, c, start) && Extended(v, e, c, start) <= MAX_TOTAL_STEPS ==>
            && key in u.shards[i]
            && u.shards[i][key] == Chain(e.bitmap, e.firstTick, e.firstSqrt, e.steps[..start] + c.steps)
            && u.total == Extended(v, e, c, start))
      && ((forall start: nat :: !(ReachesPast(e, c, start) && Extended(v, e, c, start) <= MAX_TOTAL_STEPS)) ==> u == v)
  {
    hide Lawful, Sound, SumAll, AllLens;
    var e := v.shards[i][key];
    SoundAt(m, v, i, key);
    AnchoredAt(m, v, i, key, c);
    var b := FirstBoundary(e, c.firstTick, 0);
    forall start: nat | ReachesPast(e, c, start) ensures b == Some(start) && ReadsAsRecorded(e, c, start) {
      IndexUnique(m, key, e, start);
      MergedSplits(m, key, e, c, start);
    }
    if b.Some? && |c.steps| > |e.steps| - b.value {
      assert ReachesPast(e, c, b.value);
    }
  }

  ghost predicate ReadsAsRecorded(e: Chain, c: Chain, start: nat)
    requires start <= |e.steps| < start + |c.steps|
  {
    Merged(e, start, c.steps) == Chain(e.bitmap, e.firstTick, e.firstSqrt, e.steps[..start] + c.steps)
  }

  lemma MergedSplits(m: PriceMath, key: RunKey, e: Chain, c: Chain, start: nat)
    requires Lawful(m) && Sound(m, key, e) && Sound(m, key, c) && e.bitmap == c.bitmap && ReachesPast(e, c, start)
    ensures ReadsAsRecorded(e, c, start)
  {
    hide Lawful, Sound;
    MergedReads(m, key, e, c, start);
    var x := Merged(e, start, c.steps);
    assert x.steps == x.steps[..start] + x.steps[start..];
    assert x.steps[..start] == e.steps[..start];
  }

  lemma SoundAt(m: PriceMath, v: CacheView, i: nat, key: RunKey)
    requires AllSound(m, v) && i < |v.shards| && key in v.shards[i]
    ensures Sound(m, key, v.shards[i][key])
  {
  }

  lemma AnchoredAt(m: PriceMath, v: CacheView, i: nat, key: RunKey, c: Chain)
    requires Sound(m, key, c) && Anchored(v, c.bitmap) && i < |v.shards| && key in v.shards[i]
    ensures v.shards[i][key].bitmap == c.bitmap
  {
  }

  // ---- The cache in place ----

  /** `live_steps`: the number of steps stored in one shard. */
  method LiveSteps(g: map<RunKey, SpanChain>, ghost lens: map<RunKey, nat>) returns (n: nat)
    requires g.Keys == lens.Keys && forall k :: k in g ==> lens[k] == |g[k].steps|
    ensures n == SumOf(lens)
  {
    n := 0;
    var rest := g.Keys;
    ghost var left := lens;
    while rest != {}
      invariant rest == left.Keys <= g.Keys
      invariant forall k :: k in left ==> left[k] == |g[k].steps|
      invariant n + SumOf(left) == SumOf(lens)
      decreases rest
    {
      var k :| k in rest;
      SumRemove(left, k);
      n := n + |g[k].steps|;
      rest, left := rest - {k}, left - {k};
    }
  }

  class SpanCache {
    var enabled: bool
    var shards: seq<map<RunKey, SpanChain>>
    var totalSteps: nat
    const shardOf: RunKey -> nat
    ghost var view: CacheView

    ghost var repr: set<SpanChain>

    /** A stored object is a well-formed chain of key k, kept in the shard of k, and reads as c. */
    ghost predicate Fits(chain: SpanChain, i: nat, k: RunKey, c: Chain)
      reads chain
    {
      && chain.Valid() && chain.View() == c
      && chain.key == k && shardOf(k) == i
      && k.feePips < FEE_SCALE && chain.feeDenom == FEE_SCALE - k.feePips
    }

    /** Chain objects are well formed, each belongs to its own key, and they read as the view says. */
    ghost predicate Valid()
      reads this, repr
    {
      && |shards| == |view.shards| == SHARD_COUNT
      && view.total == totalSteps
      && (forall k :: shardOf(k) < SHARD_COUNT)
      && (forall i :: 0 <= i < SHARD_COUNT ==> shards[i].Keys == view.shards[i].Keys)
      && (forall i, k :: 0 <= i < SHARD_COUNT && k in shards[i] ==>
            shards[i][k] in repr && Fits(shards[i][k], i, k, view.shards[i][k]))
      && WithinBudget(view)
    }

    constructor (enabled: bool, shardOf: RunKey -> nat)
      requires forall k :: shardOf(k) < SHARD_COUNT
      ensures Valid() && this.shardOf == shardOf && this.enabled == enabled
      ensures repr == {} && view == CacheView(seq(SHARD_COUNT, _ => map[]), 0)
    {
      this.enabled := enabled;
      this.shardOf := shardOf;
      shards := seq(SHARD_COUNT, _ => map[]);
      totalSteps := 0;
      repr := {};
      view := CacheView(seq(SHARD_COUNT, _ => map[]), 0);
      new;
      EmptyBudget(SHARD_COUNT);
    }

    /** `reserve_steps` run by one thread alone. */
    method ReserveSteps(n: nat) returns (ok: bool)
      modifies this`totalSteps
      ensures ok <==> old(totalSteps) + n <= MAX_TOTAL_STEPS
      ensures totalSteps == if ok then old(totalSteps) + n else old(totalSteps)
    {
      if totalSteps + n > MAX_TOTAL_STEPS {
        return false;
      }
      totalSteps := totalSteps + n;
      return true;
    }

    /** `release_steps` run by one thread alone. */
    method ReleaseSteps(n: nat)
      modifies this`totalSteps
      ensures totalSteps == old(totalSteps) - Min(n, old(totalSteps))
    {
      totalSteps := totalSteps - Min(n, totalSteps);
    }

    /** The steps stored in shard i. */
    method ShardSteps(i: nat) returns (n: nat)
      requires Valid() && i < SHARD_COUNT
      ensures n == SumOf(Lens(view.shards[i]))
    {
      hide WithinBudget, SumOf, Fits;
      forall k | k in shards[i] ensures Lens(view.shards[i])[k] == |shards[i][k].steps| {
        FitsReads(shards[i][k], i, k, view.shards[i][k]);
      }
      n := LiveSteps(shards[i], Lens(view.shards[i]));
    }

    /** Empties a full shard that does not hold the key. */
    method Evict(key: RunKey)
      requires Valid()
      modifies this
      ensures Valid() && view == MakeRoom(old(view), shardOf(key), key)
      ensures repr == old(repr) && enabled == old(enabled)
    {
      hide WithinBudget, SumOf, Fits, Lens, AllLens;
      var i := shardOf(key);
      MakeRoomBudget(view, i, key);
      assert |shards[i]| == |shards[i].Keys| == |view.shards[i].Keys| == |view.shards[i]|;
      if |shards[i]| >= MAX_ENTRIES_PER_SHARD && key !in shards[i] {
        var freed := ShardSteps(i);
        ghost var after := MakeRoom(view, i, key);
        shards := shards[i := map[]];
        ReleaseSteps(freed);
        view := after;
      }
    }

    lemma FitsReads(chain: SpanChain, i: nat, k: RunKey, c: Chain)
      requires Fits(chain, i, k, c)
      ensures chain.Valid() && chain.View() == c && chain.key == k && shardOf(k) == i
      ensures k.feePips < FEE_SCALE && chain.feeDenom == FEE_SCALE - k.feePips
    {
    }

    lemma MakesFit(chain: SpanChain, i: nat, k: RunKey, c: Chain)
      requires chain.Valid() && chain.View() == c && chain.key == k && shardOf(k) == i
      requires k.feePips < FEE_SCALE && chain.feeDenom == FEE_SCALE - k.feePips
      ensures Fits(chain, i, k, c)
    {
    }

    /** Stores a new chain object under its absent key, if the budget allows. */
    method StoreNew(key: RunKey, chain: SpanChain)
      requires Valid() && chain !in repr && Fits(chain, shardOf(key), key, chain.View())
      requires key !in shards[shardOf(key)] && |shards[shardOf(key)]| < MAX_ENTRIES_PER_SHARD
      modifies this
      ensures Valid() && view == Reserve(old(view), shardOf(key), key, chain.View(), |chain.steps|)
      ensures repr == old(repr) + {chain} && enabled == old(enabled)
    {
      hide WithinBudget, Fits, SumOf, Lens, AllLens;
      var i := shardOf(key);
      assert |shards[i]| == |shards[i].Keys| == |view.shards[i].Keys| == |view.shards[i]|;
      ReserveBudget(view, i, key, chain.View(), |chain.steps|);
      repr := repr + {chain};
      var ok := ReserveSteps(|chain.steps|);
      if ok {
        shards := shards[i := shards[i][key := chain]];
        view := CacheView(view.shards[i := view.shards[i][key := chain.View()]], totalSteps);
      }
    }

    /** Appends steps to a stored chain in place, if the budget allows. */
    method ExtendStored(key: RunKey, more: seq<SpanStep>)
      requires Valid() && key in shards[shardOf(key)]
      modifies this, repr
      ensures Valid() && repr == old(repr) && enabled == old(enabled)
      ensures
        var c := old(view.shards[shardOf(key)][key]);
        view == Reserve(old(view), shardOf(key), key, c.(steps := c.steps + more), |more|)
    {
      hide WithinBudget, SumOf, Fits;
      var i := shardOf(key);
      var existing := shards[i][key];
      ghost var c := view.shards[i][key];
      ReserveBudget(view, i, key, c.(steps := c.steps + more), |more|);
      FitsReads(existing, i, key, c);
      forall j, k | 0 <= j < SHARD_COUNT && k in shards[j] && (j != i || k != key) ensures shards[j][k] != existing {
        FitsReads(shards[j][k], j, k, view.shards[j][k]);
      }
      var ok := ReserveSteps(|more|);
      if ok {
        existing.Extend(more);
        view := CacheView(view.shards[i := view.shards[i][key := existing.View()]], totalSteps);
        MakesFit(existing, i, key, existing.View());
      }
    }

    /** `insert_or_extend`. */
    method InsertOrExtend(key: RunKey, chain: SpanChain)
      requires Valid() && chain !in repr && Fits(chain, shardOf(key), key, chain.View())
      modifies this, repr
      ensures Valid() && view == Insert(old(view), shardOf(key), key, old(chain.View()))
      ensures repr <= old(repr) + {chain} && enabled == old(enabled)
    {
      hide WithinBudget, SumOf, Fits, MakeRoom, FirstBoundary, Indexes;
      var i := shardOf(key);
      Evict(key);
      ghost var c := chain.View();
      assert |shards[i]| == |shards[i].Keys| == |view.shards[i].Keys| == |view.shards[i]|;
      MakeRoomBudget(old(view), i, key);
      if key !in shards[i] {
        StoreNew(key, chain);
        return;
      }
      var existing := shards[i][key];
      FitsReads(existing, i, key, view.shards[i][key]);
      IndexIsFirst(existing.index, existing.View(), chain.firstTick);
      if chain.firstTick !in existing.index {
        return;
      }
      var start := existing.index[chain.firstTick];
      var covered := |existing.steps| - start;
      if |chain.steps| <= covered {
        return;
      }
      ExtendStored(key, chain.steps[covered..]);
    }

    /** `try_jump`: a binary search for the farthest feasible step of the chain stored under the key. */
    method TryJump(key: RunKey, tick: int, sqrt: nat, remaining: nat, limit: nat) returns (r: Option<Jump>)
      requires Valid()
      ensures r ==
        var g := view.shards[shardOf(key)];
        if enabled && key in g
        then JumpOf(g[key], FEE_SCALE - key.feePips, key.zeroForOne, tick, sqrt, remaining, limit)
        else None
    {
      hide JumpOf, WithinBudget, Fits;
      var i := shardOf(key);
      if key in shards[i] {
        FitsReads(shards[i][key], i, key, view.shards[i][key]);
        JumpNeedsInput(view.shards[i][key], FEE_SCALE - key.feePips, key.zeroForOne, tick, sqrt, limit);
      }
      if !enabled || remaining == 0 {
        return None;
      }
      if key !in shards[i] {
        return None;
      }
      r := SearchJump(shards[i][key], key.zeroForOne, tick, sqrt, remaining, limit);
    }
  }

  /** The search of `try_jump` in one chain. */
  method SearchJump(chain: SpanChain, zeroForOne: bool, tick: int, sqrt: nat, remaining: nat, limit: nat)
    returns (r: Option<Jump>)
    requires chain.Valid() && remaining > 0
    ensures r == JumpOf(chain.View(), chain.feeDenom, zeroForOne, tick, sqrt, remaining, limit)
  {
    hide PrefixA, PrefixOut, Envelope, Feasible;
    ghost var c := chain.View();
    IndexIsFirst(chain.index, c, tick);
    if tick !in chain.index {
      return None;
    }
    var j := chain.index[tick];
    if j >= |chain.steps| {
      return None;
    }
    var expected := if j == 0 then chain.firstSqrt else chain.steps[j - 1].endSqrt;
    if expected != sqrt {
      return None;
    }
    var ok := IsFeasible(chain, j, remaining, j);
    if !ok {
      return None;
    }
    var lo, hi := j, |chain.steps| - 1;
    while lo < hi
      invariant j <= lo <= hi < |chain.steps|
      invariant Feasible(c.steps, chain.feeDenom, j, remaining, lo)
      invariant forall m :: hi < m < |c.steps| ==> !Feasible(c.steps, chain.feeDenom, j, remaining, m)
    {
      var mid := lo + (hi - lo + 1) / 2;
      ok := IsFeasible(chain, j, remaining, mid);
      if ok {
        lo := mid;
      } else {
        forall m | mid <= m < |c.steps| ensures !Feasible(c.steps, chain.feeDenom, j, remaining, m) {
          if Feasible(c.steps, chain.feeDenom, j, remaining, m) {
            FeasibleDownward(c.steps, chain.feeDenom, j, remaining, mid, m);
          }
        }
        hi := mid - 1;
      }
    }
    var k := lo;
    FarthestIsGreatest(c.steps, chain.feeDenom, j, remaining, j, k);
    assert k == Farthest(c.steps, chain.feeDenom, j, remaining, j);
    if k - j + 1 < MIN_JUMP_STEPS {
      return None;
    }
    PrefixMonotone(c.steps, j, k + 1);
    var last := chain.steps[k];
    if !(if zeroForOne then limit <= last.endSqrt else limit >= last.endSqrt) {
      return None;
    }
    return Some(Jump(k - j + 1, chain.prefixA[k + 1] - chain.prefixA[j], chain.prefixOut[k + 1] - chain.prefixOut[j],
                     last.endTick, last.endSqrt));
  }

  /** The feasibility test read off the tables, with its checked subtractions and multiplications. */
  method IsFeasible(chain: SpanChain, j: nat, remaining: nat, m: nat) returns (ok: bool)
    requires chain.Valid() && j <= m < |chain.steps|
    ensures ok == Feasible(chain.steps, chain.feeDenom, j, remaining, m)
  {
    hide PrefixA, Envelope, Indexes;
    if chain.prefixA[m] < chain.prefixA[j] {
      return false;
    }
    var delta := chain.prefixA[m] - chain.prefixA[j];
    if remaining < delta {
      return false;
    }
    var left := (remaining - delta) * chain.feeDenom;
    var right := chain.envelope[m] * FEE_SCALE;
    if left >= TWO256 || right >= TWO256 {
      return false;
    }
    return left >= right;
  }

  lemma {:induction false} EmptyBudget(n: nat)
    ensures WithinBudget(CacheView(seq(n, _ => map[]), 0))
  {
    var empty: seq<Shard> := seq(n, _ => map[]);
    if n > 0 {
      EmptyBudget(n - 1);
      var fewer: seq<Shard> := seq(n - 1, _ => map[]);
      assert AllLens(empty)[..n - 1] == AllLens(fewer);
      assert Lens(map[]) == map[];
      assert AllLens(empty)[n - 1] == map[];
    }
  }
}
