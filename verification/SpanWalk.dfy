/** The walk that records and jumps, proved equal to the plain loop on every sound cache. */
module SpanWalk {
  import opened Wrappers
  import opened SwapMath
  import opened ReferenceWalk
  import opened SpanChains
  import opened SpanJump
  import opened SpanCaches
  import opened Recorders
  import opened RecordingWalk

  /** What a walk needs of the cache and keeps: v is v0 after recordings under the walk's bitmap. */
  ghost predicate Usable(w: Walk, v0: CacheView, v: CacheView) {
    AllSound(w.math, v) && Anchored(v, w.pool.arc) && Grown(v0, v, w.pool.arc)
  }

  lemma GrownTransitive(u: CacheView, v: CacheView, x: CacheView, bitmap: Arc)
    requires Grown(u, v, bitmap) && Grown(v, x, bitmap)
    ensures Grown(u, x, bitmap)
  {
  }

  lemma GrownAnchored(v: CacheView, u: CacheView, bitmap: Arc)
    requires Anchored(v, bitmap) && Grown(v, u, bitmap)
    ensures Anchored(u, bitmap)
  {
  }

  /** Publishing what a tracking recorder holds keeps the cache usable. */
  lemma PublishUsable(w: Walk, v0: CacheView, v: CacheView, shardOf: RunKey -> nat, r: RecView, s: WalkState)
    requires w.Valid() && Usable(w, v0, v) && Tracks(w, r, s) && r.steps != []
    requires forall k :: shardOf(k) < |v.shards|
    ensures Usable(w, v0, PublishInto(v, shardOf, r, w.pool.arc))
  {
    hide Lawful, Sound, Grown, Anchored, AllSound, Insert;
    if Publishable(r) {
      var key := r.key.value;
      var c := Held(r, w.pool.arc);
      InsertKeepsSound(w.math, v, shardOf(key), key, c);
      var u := Insert(v, shardOf(key), key, c);
      GrownTransitive(v0, v, u, w.pool.arc);
      GrownAnchored(v, u, w.pool.arc);
    }
  }

  /** A jump the cache offers is a run of the plain loop and ends in an arrival state. */
  lemma CachedJumpIsRun(w: Walk, v0: CacheView, v: CacheView, i: nat, s: WalkState)
    requires w.Valid() && s.Valid() && Usable(w, v0, v) && i < |v.shards|
    requires KeyOf(w, s.liquidity) in v.shards[i] && MayJump(w, s.liquidity)
    requires OfferTo(v.shards[i][KeyOf(w, s.liquidity)], w, s).Some?
    ensures
      var jump := OfferTo(v.shards[i][KeyOf(w, s.liquidity)], w, s).value;
      && jump.steps >= MIN_JUMP_STEPS
      && jump.consumed <= s.remaining
      && RunsTo(w, s, jump.steps, Landed(s, jump))
      && Arrival(w.math, w.zeroForOne, jump.endTick, jump.endSqrt)
  {
    hide Lawful, OfferTo, RunsTo, Arrival, Follows;
    var key := KeyOf(w, s.liquidity);
    JumpIsRun(w, key, v.shards[i][key], s);
  }

  /** Cache, recorder and walk agree. */
  ghost predicate Synced(w: Walk, v0: CacheView, cache: SpanCache, recorder: Recorder, s: WalkState)
    requires w.pool.Valid()
    reads cache, cache.repr, recorder
  {
    cache.Valid() && Usable(w, v0, cache.view) && Tracks(w, recorder.View(), s)
  }

  lemma StartTracks(w: Walk, s: WalkState, enabled: bool)
    requires w.pool.Valid()
    ensures Tracks(w, RecView(None, 0, 0, [], false, enabled, enabled), s)
  {
  }

  lemma ObserveKeepsActive(r: RecView, key: RunKey, startTick: int, startSqrt: nat, step: SpanStep,
                           chainable: bool, landed: bool)
    ensures Observed(r, key, startTick, startSqrt, step, chainable, landed).active == r.active
  {
  }

  lemma IdleTracks(w: Walk, r: RecView, s: WalkState, t: WalkState)
    requires w.pool.Valid() && Tracks(w, r, s) && !r.active
    ensures Tracks(w, r, t)
  {
  }

  /** Recording one iteration keeps everything in step. */
  method ObserveStep(w: Walk, ghost v0: CacheView, cache: SpanCache, recorder: Recorder, s: WalkState, it: Iteration,
                     ghost emptyWords: nat, ghost jumpChecked: bool)
    requires w.Valid() && s.Valid() && Body(w, s) == Ok(it) && !Done(w, s)
    requires Synced(w, v0, cache, recorder, s)
    modifies cache, cache.repr, recorder
    ensures Synced(w, v0, cache, recorder, it.after)
    ensures fresh(cache.repr - old(cache.repr)) && cache.enabled == old(cache.enabled)
    ensures recorder.active == old(recorder.active)
    ensures Ready(w, old(TableOf(cache)), old(CursorOf(cache, recorder, s, emptyWords, jumpChecked)))
    ensures CursorOf(cache, recorder, it.after, emptyWords, jumpChecked) ==
              Iterated(w, old(TableOf(cache)), old(CursorOf(cache, recorder, s, emptyWords, jumpChecked)))
  {
    hide Lawful, Body, Usable, Observed, PublishInto, Tracks, SpanCache.Valid;
    ShardsInRange(cache);
    var key := KeyOf(w, it.after.liquidity);
    ObserveTracks(w, recorder.View(), s);
    ObserveKeepsActive(recorder.View(), key, s.tick, s.sqrtPrice, it.step, it.chainable, it.landed);
    if Breaks(recorder.View(), it.chainable) {
      ShardsInRange(cache);
      PublishUsable(w, v0, cache.view, cache.shardOf, recorder.View(), s);
    }
    recorder.Observe(cache, w.pool.arc, key, s.tick, s.sqrtPrice, it.step, it.chainable, it.landed);
  }

  lemma ShardsInRange(cache: SpanCache)
    requires cache.Valid()
    ensures forall k :: cache.shardOf(k) < |cache.view.shards|
  {
  }

  /** The walk as a cursor over values. */
  ghost function CursorOf(cache: SpanCache, recorder: Recorder, s: WalkState, emptyWords: nat,
                          jumpChecked: bool): Cursor
    reads cache, recorder
  {
    Cursor(s, recorder.View(), cache.view, emptyWords, jumpChecked)
  }

  ghost function TableOf(cache: SpanCache): Table
    reads cache
  {
    Table(cache.enabled, cache.shardOf)
  }

  /** Jumps if the cache offers it; either way the plain loop runs from s to t. */
  method JumpStep(w: Walk, ghost v0: CacheView, cache: SpanCache, recorder: Recorder, s: WalkState, emptyWords: nat)
    returns (t: WalkState, steps: nat)
    requires w.Valid() && s.Valid() && Synced(w, v0, cache, recorder, s)
    requires MayJump(w, s.liquidity)
    modifies cache, cache.repr, recorder
    ensures Synced(w, v0, cache, recorder, t)
    ensures RunsTo(w, s, steps, t)
    ensures fresh(cache.repr - old(cache.repr)) && cache.enabled == old(cache.enabled)
    ensures recorder.active == old(recorder.active)
    ensures Ready(w, old(TableOf(cache)), old(CursorOf(cache, recorder, s, emptyWords, true)))
    ensures CursorOf(cache, recorder, t, emptyWords + steps, steps == 0) ==
              Tried(w, old(TableOf(cache)), old(CursorOf(cache, recorder, s, emptyWords, true)))
  {
    hide Lawful, Body, Usable, PublishInto, Tracks, Arrival, JumpOf, SpanCache.Valid;
    var key := KeyOf(w, s.liquidity);
    ShardsInRange(cache);
    var j := cache.TryJump(key, s.tick, s.sqrtPrice, s.remaining, w.limit);
    assert j == Offer(w, TableOf(cache), CursorOf(cache, recorder, s, emptyWords, true));
    t, steps := s, 0;
    if j.None? {
      return;
    }
    CachedJumpIsRun(w, v0, cache.view, cache.shardOf(key), s);
    var jump := j.value;
    if jump.consumed <= s.remaining {
      t := Landed(s, jump);
      steps := jump.steps;
      if recorder.active && recorder.steps != [] {
        PublishUsable(w, v0, cache.view, cache.shardOf, recorder.View(), s);
      }
      FlushTracks(w, recorder.View(), s, t, true);
      recorder.Flush(cache, w.pool.arc, true);
    }
  }

  /** One pass of the loop: an iteration, and the jump after it if one is tried and offered. */
  method OnePass(w: Walk, ghost v0: CacheView, cache: SpanCache, recorder: Recorder, s: WalkState, it: Iteration,
                 emptyWords: nat, jumpChecked: bool)
    returns (t: WalkState, words: nat, checked: bool, ghost covered: nat)
    requires w.Valid() && s.Valid() && Body(w, s) == Ok(it) && !Done(w, s)
    requires Synced(w, v0, cache, recorder, s)
    modifies cache, cache.repr, recorder
    ensures Synced(w, v0, cache, recorder, t) && t.Valid()
    ensures covered >= 1 && RunsTo(w, s, covered, t)
    ensures fresh(cache.repr - old(cache.repr)) && cache.enabled == old(cache.enabled)
    ensures recorder.active == old(recorder.active)
    ensures var table, c := old(TableOf(cache)), old(CursorOf(cache, recorder, s, emptyWords, jumpChecked));
            Ready(w, table, c) && Goes(w, c) && CursorOf(cache, recorder, t, words, checked) == Pass(w, table, c)
  {
    hide Lawful, Body, Usable, Tracks, SpanCache.Valid, Observed, PublishInto, Pass, Iterated, Tried, RunsTo;
    ghost var table := TableOf(cache);
    ghost var c := CursorOf(cache, recorder, s, emptyWords, jumpChecked);
    StepKinds(w, s);
    GoesHere(w, c);
    if !recorder.active {
      IdleTracks(w, recorder.View(), s, it.after);
      ReadyHere(w, cache, c);
      PassIdle(w, table, c);
      OneBody(w, s);
      return it.after, emptyWords, jumpChecked, 1;
    }
    ObserveStep(w, v0, cache, recorder, s, it, emptyWords, jumpChecked);
    OneBody(w, s);
    t, covered := it.after, 1;
    if !it.chainable {
      PassBreaks(w, table, c);
      return t, 0, false, 1;
    }
    words := emptyWords + 1;
    checked := jumpChecked;
    if jumpChecked || !Gate(w, t, words) {
      PassChains(w, table, c);
      return;
    }
    PassTries(w, table, c);
    var steps;
    t, steps := JumpStep(w, v0, cache, recorder, it.after, words);
    words := words + steps;
    checked := steps == 0;
    covered := 1 + steps;
    RunAppends(w, s, 1, it.after, steps, t);
    RunKeepsValid(w, s, covered, t);
  }

  /**
   The whole walk, with or without the table. Whatever sound content the cache holds, wherever the
   plain loop ends this walk ends too, with the same result, error included, in no more passes; and
   the passes are those of the walk on values, which also says what is in the cache afterwards.
   */
  method Run(w: Walk, amountIn: nat, useTable: bool, cache: SpanCache)
    returns (res: Result<WalkState>, loops: nat, ghost last: Cursor)
    requires w.Valid() && amountIn < TWO255 && Halts(w, Start(w, amountIn))
    requires cache.Valid() && AllSound(w.math, cache.view) && Anchored(cache.view, w.pool.arc)
    modifies cache, cache.repr
    ensures res == Outcome(w, Start(w, amountIn))
    ensures cache.Valid() && fresh(cache.repr - old(cache.repr)) && cache.enabled == old(cache.enabled)
    ensures AllSound(w.math, cache.view) && Grown(old(cache.view), cache.view, w.pool.arc)
    ensures PassesTo(w, old(TableOf(cache)), AtStart(w, amountIn, useTable, old(cache.view)), loops, last)
    ensures Done(w, last.s) || Body(w, last.s).Err?
    ensures Ready(w, old(TableOf(cache)), last)
    ensures cache.view == if res.Ok? then Left(w, old(TableOf(cache)), last) else last.v
    ensures forall n: nat, t :: EndsAt(w, Start(w, amountIn), n, t) ==> loops <= n
  {
    hide Lawful, Body, AllSound, Anchored, Tracks, SpanCache.Valid, PassesTo, Ready, Goes, Pass, Left, RunsTo;
    var s := Start(w, amountIn);
    var recorder := new Recorder(useTable);
    var emptyWords: nat := 0;
    var jumpChecked := false;
    loops := 0;
    ghost var v0 := cache.view;
    ghost var table := TableOf(cache);
    ghost var first := AtStart(w, amountIn, useTable, v0);
    ghost var total: nat, end :| EndsAt(w, s, total, end);
    ghost var left: nat := total;
    last := first;
    EndIsOne(w, s, total, end);
    OutcomeIs(w, s, total, end);
    StartTracks(w, s, useTable);
    StartReady(w, cache, first);
    while !Done(w, s)
      invariant s.Valid() && EndsAt(w, s, left, end) && loops + left <= total
      invariant fresh(recorder) && Synced(w, v0, cache, recorder, s)
      invariant fresh(cache.repr - old(cache.repr)) && cache.enabled == old(cache.enabled)
      invariant last == CursorOf(cache, recorder, s, emptyWords, jumpChecked)
      invariant PassesTo(w, table, first, loops, last) && Ready(w, table, last)
      decreases left
    {
      var body := Body(w, s);
      if body.Err? {
        EndedEarly(w, s, left, end);
        return Err(body.error), loops, last;
      }
      ghost var before := last;
      var t, words, checked;
      ghost var covered;
      t, words, checked, covered := OnePass(w, v0, cache, recorder, s, body.value, emptyWords, jumpChecked);
      JumpStays(w, s, left, end, covered, t);
      OnePassMore(w, table, first, loops, before);
      PassReady(w, table, before);
      left := left - covered;
      s, emptyWords, jumpChecked := t, words, checked;
      last := Pass(w, table, before);
      loops := loops + 1;
    }
    EndedHere(w, s, left, end);
    if recorder.active && recorder.steps != [] {
      ShardsInRange(cache);
      PublishUsable(w, v0, cache.view, cache.shardOf, recorder.View(), s);
    }
    recorder.Finish(cache, w.pool.arc);
    LeftIs(w, table, last);
    return Ok(s), loops, last;
  }

  lemma EndedEarly(w: Walk, s: WalkState, n: nat, t: WalkState)
    requires w.pool.Valid() && EndsAt(w, s, n, t) && Body(w, s).Err?
    ensures s == t
  {
  }

  lemma EndedHere(w: Walk, s: WalkState, n: nat, t: WalkState)
    requires w.pool.Valid() && EndsAt(w, s, n, t) && Done(w, s)
    ensures s == t
  {
  }

  lemma ReadyHere(w: Walk, cache: SpanCache, c: Cursor)
    requires w.pool.Valid() && cache.Valid() && c.v == cache.view
    ensures Ready(w, TableOf(cache), c)
  {
  }

  /** A jump comes as many steps closer to the end as it skips. */
  lemma JumpStays(w: Walk, s: WalkState, n: nat, t: WalkState, k: nat, u: WalkState)
    requires w.Valid() && s.Valid() && EndsAt(w, s, n, t) && RunsTo(w, s, k, u)
    ensures k <= n && EndsAt(w, u, n - k, t) && u.Valid()
  {
    hide Lawful, Body, EndsAt, RunsTo;
    EndAfterRun(w, s, n, t, k, u);
    RunKeepsValid(w, s, k, u);
  }

  // ---- The cases of one pass ----

  lemma StartReady(w: Walk, cache: SpanCache, first: Cursor)
    requires w.pool.Valid() && cache.Valid() && first.v == cache.view
    ensures Ready(w, TableOf(cache), first) && PassesTo(w, TableOf(cache), first, 0, first)
  {
  }

  lemma GoesHere(w: Walk, c: Cursor)
    requires w.pool.Valid() && !Done(w, c.s) && Body(w, c.s).Ok?
    ensures Goes(w, c)
  {
  }

  lemma PassIdle(w: Walk, table: Table, c: Cursor)
    requires Ready(w, table, c) && Goes(w, c) && !c.r.active
    ensures Pass(w, table, c) == c.(s := Body(w, c.s).value.after)
  {
  }

  lemma PassBreaks(w: Walk, table: Table, c: Cursor)
    requires Ready(w, table, c) && Goes(w, c) && c.r.active && !Body(w, c.s).value.chainable
    ensures Pass(w, table, c) == Iterated(w, table, c).(emptyWords := 0, jumpChecked := false)
  {
  }

  lemma PassChains(w: Walk, table: Table, c: Cursor)
    requires Ready(w, table, c) && Goes(w, c) && c.r.active && Body(w, c.s).value.chainable
    requires c.jumpChecked || !Gate(w, Body(w, c.s).value.after, c.emptyWords + 1)
    ensures Pass(w, table, c) == Iterated(w, table, c).(emptyWords := c.emptyWords + 1)
  {
  }

  lemma PassTries(w: Walk, table: Table, c: Cursor)
    requires Ready(w, table, c) && Goes(w, c) && c.r.active && Body(w, c.s).value.chainable
    requires !c.jumpChecked && Gate(w, Body(w, c.s).value.after, c.emptyWords + 1)
    ensures
      var d := Iterated(w, table, c).(emptyWords := c.emptyWords + 1, jumpChecked := true);
      Ready(w, table, d) && Pass(w, table, c) == Tried(w, table, d)
  {
    IteratedReady(w, table, c);
  }

  lemma LeftIs(w: Walk, table: Table, c: Cursor)
    requires Ready(w, table, c)
    ensures Left(w, table, c) ==
              if c.r.active && c.r.steps != [] then PublishInto(c.v, table.shardOf, c.r, w.pool.arc) else c.v
  {
  }

  /** The plain loop has one end. */
  lemma EndIsOne(w: Walk, s: WalkState, n: nat, t: WalkState)
    requires w.pool.Valid() && EndsAt(w, s, n, t)
    ensures forall k: nat, u :: EndsAt(w, s, k, u) ==> k == n
  {
    hide Body;
    forall k: nat, u | EndsAt(w, s, k, u) ensures k == n {
      EndAfterRun(w, s, n, t, k, u);
      EndAfterRun(w, s, k, u, n, t);
    }
  }
}
