/**
 The global step budget under concurrency: threads insert chains into sharded maps, holding the
 shard's lock, while the counter is only touched by single atomic operations. One transition is
 one lock, map or atomic operation, and transitions of different threads interleave freely. All
 loads of the counter are relaxed: they may see old values, as far as the lock allows.
 */
module StepBudget {
  import opened StepSums
  import SpanCaches
  import SpanChains
  import SpanTables

  type Key = SpanChains.RunKey
  type Thread = nat

  /** Where a thread stands in `insert_or_extend`; every state but `Idle` holds the lock of its shard. */
  datatype Pc =
    | Idle
    | Locked(shard: nat, key: Key, len: nat)
    | Releasing(shard: nat, key: Key, len: nat, freed: nat)
    | Subtracting(shard: nat, key: Key, len: nat, freed: nat, loaded: int)
    | Looking(shard: nat, key: Key, len: nat)
    | Reserving(shard: nat, key: Key, added: nat, cur: int)
    | Reserved(shard: nat, key: Key, added: nat)

  /**
   The values the counter has had, in the order of its modifications; the chain lengths stored in
   each shard; for each shard the entry its lock holders made last; and the threads.
   */
  datatype State = State(history: seq<int>, shards: seq<map<Key, nat>>, since: seq<nat>, threads: map<Thread, Pc>) {
    predicate Shaped() {
      && history != [] && |since| == |shards|
      && forall i :: 0 <= i < |since| ==> since[i] < |history|
    }

    /** The counter now: what the next atomic modification reads. */
    function Total(): int
      requires Shaped()
    {
      history[|history| - 1]
    }

    /** The holder of the lock of shard i changes the counter. */
    function Modified(i: nat, total: int): State
      requires Shaped() && i < |shards|
    {
      this.(history := history + [total], since := since[i := |history|])
    }

    /**
     What a relaxed load under the lock of shard i sees: any value from the last change of an earlier
     holder of that lock on. Those changes happened before; of other changes it need not know.
     */
    function Seen(i: nat, j: nat): int
      requires Shaped() && i < |shards|
    {
      if since[i] <= j < |history| then history[j] else Total()
    }
  }

  /** What the schedule decides: the chain a thread brings, how much of it is new, what relaxed
      loads see, and whether a weak exchange fails for no reason. */
  datatype Choice = Choice(shard: nat, key: Key, len: nat, added: nat, seen: nat, observed: int, spurious: bool)

  predicate Free(s: State, shard: nat) {
    forall t :: t in s.threads && !s.threads[t].Idle? ==> s.threads[t].shard != shard
  }

  /** The shard after storing n steps under a key. */
  function Put(g: map<Key, nat>, k: Key, n: nat): map<Key, nat> {
    g[k := n]
  }

  /** `n.min(loaded)`: what `release_steps` subtracts. */
  function Released(freed: nat, loaded: int): int {
    if freed <= loaded then freed else loaded
  }

  /** Steps a thread has taken out of the maps but not yet off the counter, or the other way round. */
  function Held(pc: Pc): nat {
    match pc
    case Releasing(_, _, _, freed) => freed
    case Subtracting(_, _, _, freed, _) => freed
    case Reserved(_, _, added) => added
    case _ => 0
  }

  ghost function InFlight(threads: map<Thread, Pc>): map<Thread, nat> {
    map t | t in threads :: Held(threads[t])
  }

  // ---- The invariant ----

  /** Locks exclude: no two threads work in one shard. */
  ghost predicate Exclusive(s: State) {
    forall t, u :: t in s.threads && u in s.threads && t != u && !s.threads[t].Idle? && !s.threads[u].Idle? ==>
      s.threads[t].shard != s.threads[u].shard
  }

  /** What each thread may rely on. */
  ghost predicate ThreadOk(s: State, pc: Pc) {
    && (!pc.Idle? ==> pc.shard < |s.shards|)
    && (pc.Looking? || pc.Reserving? || pc.Reserved? || pc.Releasing? || pc.Subtracting? ==>
          pc.key in s.shards[pc.shard] || |s.shards[pc.shard]| < SpanCaches.MAX_ENTRIES_PER_SHARD)
    && (pc.Subtracting? ==> pc.freed <= pc.loaded)
  }

  /** The counter is exactly the stored steps plus those in flight. */
  ghost predicate Conserved(s: State) {
    s.Shaped() && s.Total() == SumAll(s.shards) + SumOf(InFlight(s.threads))
  }

  /** Since its holders last changed the counter, a shard's steps were always part of it. */
  ghost predicate PartOfHistory(s: State)
    requires s.Shaped()
  {
    && (forall i, j :: 0 <= i < |s.shards| && s.since[i] <= j < |s.history| ==> SumOf(s.shards[i]) <= s.history[j])
    && forall t, j :: t in s.threads && CountedAt(s, s.threads[t], j) ==>
         SumOf(s.shards[s.threads[t].shard]) + Held(s.threads[t]) <= s.history[j]
  }

  predicate CountedAt(s: State, pc: Pc, j: int)
    requires s.Shaped()
  {
    !pc.Idle? && pc.shard < |s.shards| && s.since[pc.shard] <= j < |s.history|
  }

  ghost predicate Inv(s: State) {
    && s.Shaped() && Exclusive(s)
    && (forall t :: t in s.threads ==> ThreadOk(s, s.threads[t]))
    && (forall i :: 0 <= i < |s.shards| ==> |s.shards[i]| <= SpanCaches.MAX_ENTRIES_PER_SHARD)
    && Conserved(s) && PartOfHistory(s)
    && s.Total() <= SpanCaches.MAX_TOTAL_STEPS
  }

  /** One atomic operation of thread t. */
  ghost function Step(s: State, t: Thread, c: Choice): (r: State)
    requires Inv(s) && t in s.threads
    ensures r.Shaped() && r.threads.Keys == s.threads.Keys && |r.shards| == |s.shards|
  {
    match s.threads[t]
    case Idle =>
      if c.shard < |s.shards| && Free(s, c.shard)
      then s.(threads := s.threads[t := Locked(c.shard, c.key, c.len)])
      else s
    case Locked(i, k, len) =>
      if |s.shards[i]| >= SpanCaches.MAX_ENTRIES_PER_SHARD && k !in s.shards[i]
      then s.(shards := s.shards[i := map[]], threads := s.threads[t := Releasing(i, k, len, SumOf(s.shards[i]))])
      else s.(threads := s.threads[t := Looking(i, k, len)])
    case Releasing(i, k, len, freed) =>
      s.(threads := s.threads[t := Subtracting(i, k, len, freed, s.Seen(i, c.seen))])
    case Subtracting(i, k, len, freed, loaded) =>
      s.Modified(i, s.Total() - Released(freed, loaded)).(threads := s.threads[t := Looking(i, k, len)])
    case Looking(i, k, len) =>
      if k !in s.shards[i] then s.(threads := s.threads[t := Reserving(i, k, len, c.observed)])
      else if c.added > 0 then s.(threads := s.threads[t := Reserving(i, k, c.added, c.observed)])
      else s.(threads := s.threads[t := Idle])
    case Reserving(i, k, added, cur) =>
      if cur + added > SpanCaches.MAX_TOTAL_STEPS then s.(threads := s.threads[t := Idle])
      else if s.Total() == cur && !c.spurious
      then s.Modified(i, s.Total() + added).(threads := s.threads[t := Reserved(i, k, added)])
      else s.(threads := s.threads[t := Reserving(i, k, added, c.observed)])
    case Reserved(i, k, added) =>
      var now: nat := added + if k in s.shards[i] then s.shards[i][k] else 0;
      s.(shards := s.shards[i := Put(s.shards[i], k, now)], threads := s.threads[t := Idle])
  }

  lemma InFlightUpdate(threads: map<Thread, Pc>, t: Thread, pc: Pc)
    requires t in threads
    ensures SumOf(InFlight(threads[t := pc])) + Held(threads[t]) == SumOf(InFlight(threads)) + Held(pc)
  {
    assert InFlight(threads[t := pc]) == InFlight(threads)[t := Held(pc)];
    SumUpdate(InFlight(threads), t, Held(pc));
  }

  lemma HeldInTotal(s: State, t: Thread)
    requires Conserved(s) && t in s.threads
    ensures Held(s.threads[t]) <= s.Total()
  {
    SumAtLeast(InFlight(s.threads), t);
  }

  /** The steps of one shard and those one thread has in flight are different parts of the counter. */
  lemma PartOfTotal(s: State, i: nat)
    requires Conserved(s) && i < |s.shards|
    ensures SumOf(s.shards[i]) <= s.Total()
    ensures forall t :: t in s.threads ==> SumOf(s.shards[i]) + Held(s.threads[t]) <= s.Total()
  {
    hide SumOf, SumAll;
    SumAllUpdate(s.shards, i, s.shards[i]);
    forall t | t in s.threads ensures SumOf(s.shards[i]) + Held(s.threads[t]) <= s.Total() {
      SumAtLeast(InFlight(s.threads), t);
    }
  }

  /** However old a value the load of a release sees, it covers what was cleared. */
  lemma LoadCovers(s: State, t: Thread, j: nat)
    requires Inv(s) && t in s.threads && s.threads[t].Releasing?
    ensures s.threads[t].freed <= s.Seen(s.threads[t].shard, j)
  {
    hide SumOf, SumAll, InFlight, Exclusive;
    var pc := s.threads[t];
    assert ThreadOk(s, pc);
    var n := if s.since[pc.shard] <= j < |s.history| then j else |s.history| - 1;
    assert CountedAt(s, pc, n);
  }

  /** In every state the subtraction takes off exactly what was cleared, and never underflows. */
  lemma ReleaseNeverTruncates(s: State, t: Thread)
    requires Inv(s) && t in s.threads && s.threads[t].Subtracting?
    ensures Released(s.threads[t].freed, s.threads[t].loaded) == s.threads[t].freed <= s.Total()
  {
    HeldInTotal(s, t);
  }

  lemma StepConserves(s: State, t: Thread, c: Choice)
    requires Inv(s) && t in s.threads
    ensures Conserved(Step(s, t, c))
  {
    hide SumOf, SumAll, InFlight, Exclusive, Free, PartOfHistory;
    var pc := s.threads[t];
    InFlightUpdate(s.threads, t, Step(s, t, c).threads[t]);
    match pc
    case Locked(i, k, len) =>
      SumAllUpdate(s.shards, i, map[]);
      EmptySum();
    case Reserved(i, k, added) =>
      var now: nat := added + if k in s.shards[i] then s.shards[i][k] else 0;
      SumUpdate(s.shards[i], k, now);
      SumAllUpdate(s.shards, i, Put(s.shards[i], k, now));
    case Subtracting(_, _, _, _, _) =>
      ReleaseNeverTruncates(s, t);
    case _ =>
      SameThreads(s, t, c);
  }

  lemma EmptySum()
    ensures SumOf<Key>(map[]) == 0
  {
  }

  /** A thread that stays where it is leaves the state as it was. */
  lemma SameThreads(s: State, t: Thread, c: Choice)
    requires Inv(s) && t in s.threads
    ensures Step(s, t, c) == s || Step(s, t, c).threads == s.threads[t := Step(s, t, c).threads[t]]
  {
    hide SumOf, SumAll, InFlight, Free, Conserved, Put, Exclusive, PartOfHistory;
  }

  lemma StepExcludes(s: State, t: Thread, c: Choice)
    requires Inv(s) && t in s.threads
    ensures Exclusive(Step(s, t, c))
  {
    hide SumOf, SumAll, InFlight, Conserved, Put, ThreadOk, Held, Released, PartOfHistory;
  }

  lemma PutSize(g: map<Key, nat>, k: Key, n: nat)
    ensures |Put(g, k, n)| == |g| + (if k in g then 0 else 1)
  {
    assert Put(g, k, n).Keys == g.Keys + {k};
  }

  lemma StepBounded(s: State, t: Thread, c: Choice)
    requires Inv(s) && t in s.threads
    ensures Step(s, t, c).Total() <= SpanCaches.MAX_TOTAL_STEPS
    ensures forall i :: 0 <= i < |Step(s, t, c).shards| ==>
              |Step(s, t, c).shards[i]| <= SpanCaches.MAX_ENTRIES_PER_SHARD
  {
    hide SumOf, SumAll, InFlight, Conserved, Free, Exclusive, Put, PartOfHistory;
    var pc := s.threads[t];
    assert ThreadOk(s, pc);
    match pc
    case Reserved(i, k, added) =>
      var now: nat := added + if k in s.shards[i] then s.shards[i][k] else 0;
      PutSize(s.shards[i], k, now);
    case Subtracting(_, _, _, _, _) =>
      ReleaseNeverTruncates(s, t);
    case _ =>
  }

  /** The thread that moves finds what it relies on. */
  lemma StepThreadOk(s: State, t: Thread, c: Choice)
    requires Inv(s) && t in s.threads
    ensures ThreadOk(Step(s, t, c), Step(s, t, c).threads[t])
  {
    hide SumOf, SumAll, InFlight, Free, Exclusive, Conserved, PartOfHistory, Put, Held;
    assert ThreadOk(s, s.threads[t]);
    if s.threads[t].Releasing? {
      LoadCovers(s, t, c.seen);
    }
  }

  /** The other threads are not disturbed: their shards are locked. */
  lemma StepOthersOk(s: State, t: Thread, c: Choice, u: Thread)
    requires Inv(s) && t in s.threads && u in s.threads && u != t
    ensures Step(s, t, c).threads[u] == s.threads[u] && ThreadOk(Step(s, t, c), s.threads[u])
  {
    hide SumOf, SumAll, InFlight, Free, Conserved, Put, PartOfHistory;
    assert ThreadOk(s, s.threads[t]) && ThreadOk(s, s.threads[u]);
  }

  /** A change of the counter by the holder of shard i. */
  lemma ModifiedPart(s: State, t: Thread, i: nat, total: int, pc: Pc)
    requires s.Shaped() && PartOfHistory(s) && Exclusive(s) && i < |s.shards|
    requires t in s.threads && !s.threads[t].Idle? && s.threads[t].shard == i
    requires !pc.Idle? && pc.shard == i
    requires Conserved(s.Modified(i, total).(threads := s.threads[t := pc]))
    ensures PartOfHistory(s.Modified(i, total).(threads := s.threads[t := pc]))
  {
    hide SumOf, Conserved, Held;
    var u := s.Modified(i, total).(threads := s.threads[t := pc]);
    forall k, j | 0 <= k < |u.shards| && u.since[k] <= j < |u.history| ensures SumOf(u.shards[k]) <= u.history[j] {
      PartOfTotal(u, k);
    }
    forall r, j | r in u.threads && CountedAt(u, u.threads[r], j)
      ensures SumOf(u.shards[u.threads[r].shard]) + Held(u.threads[r]) <= u.history[j]
    {
      PartOfTotal(u, u.threads[r].shard);
      if j < |s.history| {
        assert r != t && CountedAt(s, s.threads[r], j);
      }
    }
  }

  /** A move within shard i that leaves the counter alone, and the stake of the shard as it was. */
  lemma MovedPart(s: State, t: Thread, i: nat, g: map<Key, nat>, pc: Pc)
    requires s.Shaped() && PartOfHistory(s) && Exclusive(s) && i < |s.shards|
    requires t in s.threads && (pc.Idle? || pc.shard == i)
    requires if s.threads[t].Idle? then Free(s, i) else s.threads[t].shard == i
    requires SumOf(g) + Held(pc) <= SumOf(s.shards[i]) + Held(s.threads[t])
    ensures PartOfHistory(s.(shards := s.shards[i := g], threads := s.threads[t := pc]))
  {
    hide SumOf, Held;
    var u := s.(shards := s.shards[i := g], threads := s.threads[t := pc]);
    forall k, j | 0 <= k < |u.shards| && u.since[k] <= j < |u.history| ensures SumOf(u.shards[k]) <= u.history[j] {
      assert k == i && !s.threads[t].Idle? ==> CountedAt(s, s.threads[t], j);
      IdleHolds(s.threads[t]);
    }
    forall r, j | r in u.threads && CountedAt(u, u.threads[r], j)
      ensures SumOf(u.shards[u.threads[r].shard]) + Held(u.threads[r]) <= u.history[j]
    {
      IdleHolds(s.threads[t]);
      assert r != t ==> CountedAt(s, s.threads[r], j);
      assert r == t && !s.threads[t].Idle? ==> CountedAt(s, s.threads[t], j);
    }
  }

  lemma IdleHolds(pc: Pc)
    ensures pc.Idle? ==> Held(pc) == 0
  {
  }

  lemma StepPart(s: State, t: Thread, c: Choice)
    requires Inv(s) && t in s.threads
    ensures PartOfHistory(Step(s, t, c))
  {
    hide SumOf, SumAll, InFlight, Conserved, Exclusive, Free, PartOfHistory;
    var pc := s.threads[t];
    var u := Step(s, t, c);
    assert ThreadOk(s, pc);
    StepConserves(s, t, c);
    if u.history != s.history {
      ModifiedPart(s, t, pc.shard, u.Total(), u.threads[t]);
    } else if u != s {
      var i := if pc.Idle? then c.shard else pc.shard;
      EmptySum();
      if pc.Reserved? {
        SumUpdate(s.shards[i], pc.key, u.shards[i][pc.key]);
      }
      MovedPart(s, t, i, u.shards[i], u.threads[t]);
      assert u.shards == s.shards[i := u.shards[i]];
      assert u == s.(shards := s.shards[i := u.shards[i]], threads := s.threads[t := u.threads[t]]);
    }
  }

  /** Every atomic operation of every thread keeps the invariant. */
  lemma StepKeepsInv(s: State, t: Thread, c: Choice)
    requires Inv(s) && t in s.threads
    ensures Inv(Step(s, t, c))
  {
    hide SumOf, SumAll, InFlight, Conserved, Exclusive, PartOfHistory, ThreadOk, Step;
    StepConserves(s, t, c);
    StepPart(s, t, c);
    StepExcludes(s, t, c);
    StepBounded(s, t, c);
    forall u | u in s.threads ensures ThreadOk(Step(s, t, c), Step(s, t, c).threads[u]) {
      if u == t {
        StepThreadOk(s, t, c);
      } else {
        StepOthersOk(s, t, c, u);
      }
    }
  }

  datatype Move = Move(thread: Thread, choice: Choice)

  ghost function Interleaved(s: State, moves: seq<Move>): State
    requires Inv(s) && forall i :: 0 <= i < |moves| ==> moves[i].thread in s.threads
    decreases |moves|
  {
    if moves == [] then s
    else
      var u := Step(s, moves[0].thread, moves[0].choice);
      StepKeepsInv(s, moves[0].thread, moves[0].choice);
      Interleaved(u, moves[1..])
  }

  /** The process at its start: empty shards, a zero counter, every thread idle. */
  function Initial(shards: nat, threads: set<Thread>): State {
    State([0], EmptyRow(shards), seq(shards, _ => 0), map t | t in threads :: Idle)
  }

  function EmptyRow(n: nat): seq<map<Key, nat>> {
    seq(n, _ => map[])
  }

  lemma {:induction false} EmptyShards(n: nat)
    ensures SumAll(EmptyRow(n)) == 0
  {
    if n > 0 {
      EmptyShards(n - 1);
      assert EmptyRow(n)[..n - 1] == EmptyRow(n - 1);
      EmptySum();
    }
  }

  lemma {:induction false} IdleThreads(threads: set<Thread>)
    ensures SumOf(InFlight(map t | t in threads :: Idle)) == 0
    decreases threads
  {
    var m := InFlight(map t | t in threads :: Idle);
    if threads != {} {
      var t :| t in threads;
      SumRemove(m, t);
      assert m - {t} == InFlight(map u | u in threads - {t} :: Idle);
      IdleThreads(threads - {t});
    } else {
      assert m == map[];
    }
  }

  /** Over every interleaving from the start the budget is conserved and never exceeded. */
  lemma {:induction false} BudgetHolds(shards: nat, threads: set<Thread>, moves: seq<Move>)
    requires forall i :: 0 <= i < |moves| ==> moves[i].thread in threads
    ensures Inv(Initial(shards, threads))
    ensures Inv(Interleaved(Initial(shards, threads), moves))
  {
    EmptyShards(shards);
    IdleThreads(threads);
    InterleavedInv(Initial(shards, threads), moves);
  }

  lemma {:induction false} InterleavedInv(s: State, moves: seq<Move>)
    requires Inv(s) && forall i :: 0 <= i < |moves| ==> moves[i].thread in s.threads
    ensures Inv(Interleaved(s, moves))
    decreases |moves|
  {
    hide Inv, Step;
    if moves != [] {
      StepKeepsInv(s, moves[0].thread, moves[0].choice);
      InterleavedInv(Step(s, moves[0].thread, moves[0].choice), moves[1..]);
    }
  }

  // ---- A thread alone ----

  /** An operation of t whose loads see the counter as it is, and whose exchange does not fail by chance. */
  ghost function Alone(s: State, t: Thread, c: Choice): (r: State)
    requires Inv(s) && t in s.threads
    ensures Inv(r) && r.threads.Keys == s.threads.Keys
  {
    StepKeepsInv(s, t, c.(observed := s.Total(), spurious := false));
    Step(s, t, c.(observed := s.Total(), spurious := false))
  }

  ghost function AloneFor(s: State, t: Thread, c: Choice, n: nat): (r: State)
    requires Inv(s) && t in s.threads
    ensures Inv(r) && r.threads.Keys == s.threads.Keys
    decreases n
  {
    if n == 0 then s else AloneFor(Alone(s, t, c), t, c, n - 1)
  }

  /** A full shard without the key. */
  predicate Full(g: map<Key, nat>, key: Key) {
    |g| >= 4 && key !in g
  }

  /** What is left of the shard and of the counter after making room. */
  ghost function RoomMade(s: State, i: nat, key: Key): (map<Key, nat>, int)
    requires s.Shaped() && i < |s.shards|
  {
    if Full(s.shards[i], key) then (map[], s.Total() - SumOf(s.shards[i])) else (s.shards[i], s.Total())
  }

  /** Taking the lock and making room, one operation or three. */
  lemma MakesRoom(s: State, t: Thread, c: Choice) returns (n: nat)
    requires Inv(s) && t in s.threads && s.threads[t].Idle? && c.shard < |s.shards| && Free(s, c.shard)
    ensures
      var u := AloneFor(s, t, c, n);
      var room := RoomMade(s, c.shard, c.key);
      && u.threads == s.threads[t := Looking(c.shard, c.key, c.len)]
      && u.shards == s.shards[c.shard := room.0] && u.Total() == room.1
  {
    hide SumOf, SumAll, InFlight, Conserved, PartOfHistory, Exclusive, Inv;
    var a := Alone(s, t, c);
    assert a == s.(threads := s.threads[t := Locked(c.shard, c.key, c.len)]);
    var b := Alone(a, t, c);
    if Full(s.shards[c.shard], c.key) {
      var d := Alone(b, t, c);
      var e := Alone(d, t, c);
      Unwound(s, t, c, 4);
      Unwound(a, t, c, 3);
      Unwound(b, t, c, 2);
      Unwound(d, t, c, 1);
      SubtractsExactly(d, t);
      return 4;
    } else {
      Unwound(s, t, c, 2);
      Unwound(a, t, c, 1);
      assert s.shards[c.shard := s.shards[c.shard]] == s.shards;
      return 2;
    }
  }

  lemma SubtractsExactly(s: State, t: Thread)
    requires Inv(s) && t in s.threads && s.threads[t].Subtracting?
    ensures s.threads[t].freed <= s.threads[t].loaded
  {
    ReleaseNeverTruncates(s, t);
  }

  lemma Unwound(s: State, t: Thread, c: Choice, n: nat)
    requires Inv(s) && t in s.threads && n > 0
    ensures AloneFor(s, t, c, n) == AloneFor(Alone(s, t, c), t, c, n - 1)
    ensures AloneFor(s, t, c, 0) == s
  {
  }

  /** What an insertion by a thread alone leaves behind, in full. */
  ghost predicate Inserted(s: State, u: State, i: nat, key: Key, len: nat, added: nat)
    requires s.Shaped() && u.Shaped() && i < |s.shards|
  {
    var room := RoomMade(s, i, key);
    var g, total := room.0, room.1;
    var grow := if key in g then added else len;
    if (key in g && added == 0) || total + grow > SpanCaches.MAX_TOTAL_STEPS then
      u.shards == s.shards[i := g] && u.Total() == total
    else
      u.shards == s.shards[i := Put(g, key, grow + (if key in g then g[key] else 0))] && u.Total() == total + grow
  }

  /** Looking, reserving and storing, one operation or three. */
  lemma StoresRest(s: State, t: Thread, c: Choice) returns (n: nat)
    requires Inv(s) && t in s.threads && s.threads[t] == Looking(c.shard, c.key, c.len)
    ensures c.shard < |s.shards|
    ensures
      var u := AloneFor(s, t, c, n);
      var g := s.shards[c.shard];
      var grow: nat := if c.key in g then c.added else c.len;
      && u.threads == s.threads[t := Idle]
      && if (c.key in g && c.added == 0) || s.Total() + grow > SpanCaches.MAX_TOTAL_STEPS then
           u.shards == s.shards && u.Total() == s.Total()
         else
           && u.shards == s.shards[c.shard := Put(g, c.key, grow + (if c.key in g then g[c.key] else 0))]
           && u.Total() == s.Total() + grow
  {
    hide SumOf, SumAll, InFlight, Inv, Alone, Put;
    var grow, a := Looks(s, t, c);
    Unwound(s, t, c, 1);
    if a.threads[t].Idle? {
      Unwound(a, t, c, 1);
      return 1;
    }
    var b := Reserves(a, t, c, grow);
    Unwound(s, t, c, 2);
    Unwound(a, t, c, 1);
    Unwound(b, t, c, 1);
    if b.threads[t].Idle? {
      return 2;
    }
    var d := Stores(b, t, c, grow);
    Unwound(s, t, c, 3);
    Unwound(a, t, c, 2);
    Unwound(d, t, c, 1);
    return 3;
  }

  lemma Looks(s: State, t: Thread, c: Choice) returns (grow: nat, a: State)
    requires Inv(s) && t in s.threads && s.threads[t] == Looking(c.shard, c.key, c.len)
    ensures s.Shaped() && c.shard < |s.shards|
    ensures grow == if c.key in s.shards[c.shard] then c.added else c.len
    ensures a == Alone(s, t, c)
    ensures a == s.(threads := s.threads[t := if c.key in s.shards[c.shard] && c.added == 0 then Idle
                                              else Reserving(c.shard, c.key, grow, s.Total())])
  {
    hide SumOf, SumAll, InFlight, Conserved, PartOfHistory, Exclusive, Inv;
    LookingShard(s, t);
    ShapedState(s);
    grow := if c.key in s.shards[c.shard] then c.added else c.len;
    a := Alone(s, t, c);
  }

  lemma Reserves(s: State, t: Thread, c: Choice, grow: nat) returns (a: State)
    requires Inv(s) && s.Shaped() && t in s.threads && s.threads[t] == Reserving(c.shard, c.key, grow, s.Total())
    requires c.shard < |s.shards|
    ensures a == Alone(s, t, c) && a.Shaped() && a.shards == s.shards
    ensures if s.Total() + grow > SpanCaches.MAX_TOTAL_STEPS
            then a.Total() == s.Total() && a.threads == s.threads[t := Idle]
            else a.Total() == s.Total() + grow && a.threads == s.threads[t := Reserved(c.shard, c.key, grow)]
  {
    hide SumOf, SumAll, InFlight, Conserved, PartOfHistory, Exclusive, Inv;
    a := Alone(s, t, c);
    ShapedState(a);
  }

  lemma Stores(s: State, t: Thread, c: Choice, grow: nat) returns (a: State)
    requires Inv(s) && s.Shaped() && t in s.threads && s.threads[t] == Reserved(c.shard, c.key, grow)
    requires c.shard < |s.shards|
    ensures a == Alone(s, t, c) && a.Shaped() && a.Total() == s.Total() && a.threads == s.threads[t := Idle]
    ensures
      var g := s.shards[c.shard];
      a.shards == s.shards[c.shard := Put(g, c.key, grow + (if c.key in g then g[c.key] else 0))]
  {
    hide SumOf, SumAll, InFlight, Conserved, PartOfHistory, Exclusive, Inv, Put;
    a := Alone(s, t, c);
    ShapedState(a);
  }

  lemma LookingShard(s: State, t: Thread)
    requires Inv(s) && t in s.threads && s.threads[t].Looking?
    ensures s.threads[t].shard < |s.shards|
  {
    assert ThreadOk(s, s.threads[t]);
  }

  lemma {:induction false} AloneAppends(s: State, t: Thread, c: Choice, n: nat, k: nat)
    requires Inv(s) && t in s.threads
    ensures AloneFor(AloneFor(s, t, c, n), t, c, k) == AloneFor(s, t, c, n + k)
    decreases n
  {
    hide Inv, Alone;
    if n > 0 {
      AloneAppends(Alone(s, t, c), t, c, n - 1, k);
    }
  }

  /** Alone, a thread that finds its shard free comes through and leaves exactly what an insertion should. */
  lemma InsertsAlone(s: State, t: Thread, c: Choice) returns (n: nat, u: State)
    requires Inv(s) && t in s.threads && s.threads[t].Idle? && c.shard < |s.shards| && Free(s, c.shard)
    ensures u == AloneFor(s, t, c, n) && Inv(u) && u.threads == s.threads
    ensures Inserted(s, u, c.shard, c.key, c.len, c.added)
  {
    hide SumOf, SumAll, InFlight, Inv, Free, AloneFor, Inserted, RoomMade, Put;
    ShapedState(s);
    var k := MakesRoom(s, t, c);
    var v := AloneFor(s, t, c, k);
    var j := StoresRest(v, t, c);
    AloneAppends(s, t, c, k, j);
    n, u := k + j, AloneFor(s, t, c, k + j);
    ShapedState(u);
    ShapedState(v);
    Combined(s, v, u, c.shard, c.key, c.len, c.added);
  }

  lemma Combined(s: State, v: State, u: State, i: nat, key: Key, len: nat, added: nat)
    requires s.Shaped() && v.Shaped() && u.Shaped() && i < |s.shards|
    requires v.shards == s.shards[i := RoomMade(s, i, key).0] && v.Total() == RoomMade(s, i, key).1
    requires
      var g := v.shards[i];
      var grow: nat := if key in g then added else len;
      if (key in g && added == 0) || v.Total() + grow > SpanCaches.MAX_TOTAL_STEPS then
        u.shards == v.shards && u.Total() == v.Total()
      else
        && u.shards == v.shards[i := Put(g, key, grow + (if key in g then g[key] else 0))]
        && u.Total() == v.Total() + grow
    ensures Inserted(s, u, i, key, len, added)
  {
    hide RoomMade, Put;
    var g := RoomMade(s, i, key).0;
    assert v.shards[i] == g;
    assert s.shards[i := g][i := u.shards[i]] == s.shards[i := u.shards[i]];
  }

  lemma ShapedState(s: State)
    requires Inv(s)
    ensures s.Shaped()
  {
  }

  /** The length the insertion of a chain adds to a stored one. */
  ghost function Added(e: SpanChains.Chain, c: SpanChains.Chain): nat {
    match SpanTables.FirstBoundary(e, c.firstTick, 0)
    case None => 0
    case Some(start) => if |c.steps| <= |e.steps| - start then 0 else |c.steps| - (|e.steps| - start)
  }

  /**
   The concurrent insertion refines the sequential one: alone, its atomic operations leave the lengths
   and the counter that `SpanCaches.Insert` leaves.
   */
  lemma AloneIsInsert(s: State, t: Thread, v: SpanCaches.CacheView, i: nat, key: Key, c: SpanChains.Chain)
    returns (choice: Choice, n: nat)
    requires Inv(s) && t in s.threads && s.threads[t].Idle? && i < |s.shards| && Free(s, i)
    requires s.shards == SpanCaches.AllLens(v.shards) && s.Total() == v.total
    ensures
      var u := AloneFor(s, t, choice, n);
      && Inv(u) && u.threads == s.threads
      && u.shards == SpanCaches.AllLens(SpanCaches.Insert(v, i, key, c).shards)
      && u.Total() == SpanCaches.Insert(v, i, key, c).total
  {
    hide SumOf, SumAll, InFlight, Conserved, PartOfHistory, Exclusive, Inv, Free;
    var added := if key in v.shards[i] then Added(v.shards[i][key], c) else 0;
    choice := Choice(i, key, |c.steps|, added, 0, 0, false);
    var u;
    n, u := InsertsAlone(s, t, choice);
    ShapedState(s);
    ShapedState(u);
    FitsCounter(s, i);
    InsertedIsInsert(s, u, v, i, key, c, added);
  }

  lemma FitsCounter(s: State, i: nat)
    requires Inv(s) && i < |s.shards|
    ensures SumOf(s.shards[i]) <= s.Total()
  {
    PartOfTotal(s, i);
  }

  lemma InsertedIsInsert(s: State, u: State, v: SpanCaches.CacheView, i: nat, key: Key, c: SpanChains.Chain, added: nat)
    requires s.Shaped() && u.Shaped() && i < |s.shards| && SumOf(s.shards[i]) <= s.Total()
    requires s.shards == SpanCaches.AllLens(v.shards) && s.Total() == v.total
    requires key in v.shards[i] ==> added == Added(v.shards[i][key], c)
    requires Inserted(s, u, i, key, |c.steps|, added)
    ensures u.shards == SpanCaches.AllLens(SpanCaches.Insert(v, i, key, c).shards)
    ensures u.Total() == SpanCaches.Insert(v, i, key, c).total
  {
    hide SumOf, SumAll;
    var g := v.shards[i];
    assert s.shards[i] == SpanCaches.Lens(g);
    assert SpanCaches.Lens(g).Keys == g.Keys;
    assert |SpanCaches.Lens(g)| == |SpanCaches.Lens(g).Keys| == |g.Keys| == |g|;
    assert SpanCaches.Lens(map[]) == map[];
    forall h: SpanCaches.Shard
      ensures SpanCaches.AllLens(v.shards[i := h]) == s.shards[i := SpanCaches.Lens(h)]
    {
      SpanCaches.AllLensUpdate(v.shards, i, h);
    }
    SpanCaches.LensUpdate(map[], key, c);
    SpanCaches.LensUpdate(g, key, c);
    if key in g {
      var e := g[key];
      var b := SpanTables.FirstBoundary(e, c.firstTick, 0);
      if b.Some? && |c.steps| > |e.steps| - b.value {
        SpanCaches.LensUpdate(g, key, SpanChains.Merged(e, b.value, c.steps));
      }
    }
  }
}
