/**
 The block log accumulator: logs of one block are buffered and handed on as a whole when the block
 settles or a later block begins. Over whole runs nothing is lost, repeated or reordered within a
 block.
 */
module BlockLogs {
  import opened Wrappers

  const SETTLE_MS: nat := 5
  const FAR_FUTURE_MS: nat := 3_600_000

  datatype FeedOutcome<Log> = Buffered | FlushBlock(block: nat, logs: seq<Log>) | LatePatch(log: Log)

  datatype Acc<Log> = Acc(cur: Option<nat>, buf: seq<Log>, lastFeedAt: Option<nat>)

  /** The accumulator after a log of `block` arrives. */
  function Fed<Log>(a: Acc<Log>, block: nat, log: Log, now: nat): Acc<Log> {
    if a.cur.None? || block == a.cur.value then Acc(Some(block), a.buf + [log], Some(now))
    else if block > a.cur.value then Acc(Some(block), [log], Some(now))
    else a.(lastFeedAt := Some(now))
  }

  function FedOutcome<Log>(a: Acc<Log>, block: nat, log: Log): FeedOutcome<Log> {
    if a.cur.None? || block == a.cur.value then Buffered
    else if block > a.cur.value then FlushBlock(a.cur.value, a.buf)
    else LatePatch(log)
  }

  /** When the buffered block is due: a settle window after the last arrival. */
  function Deadline<Log>(a: Acc<Log>, now: nat): nat {
    if a.lastFeedAt.Some? then a.lastFeedAt.value + SETTLE_MS else now + FAR_FUTURE_MS
  }

  function Taken<Log>(a: Acc<Log>): Acc<Log> {
    if a.cur.None? then a else Acc(None, [], None)
  }

  class BlockLogAccumulator<Log> {
    var curBlock: Option<nat>
    var buf: seq<Log>
    var lastFeedAt: Option<nat>

    function View(): Acc<Log>
      reads this
    {
      Acc(curBlock, buf, lastFeedAt)
    }

    constructor ()
      ensures View() == Acc(None, [], None)
    {
      curBlock, buf, lastFeedAt := None, [], None;
    }

    method Feed(block: nat, log: Log, now: nat) returns (r: FeedOutcome<Log>)
      modifies this
      ensures View() == Fed(old(View()), block, log, now)
      ensures r == FedOutcome(old(View()), block, log)
    {
      lastFeedAt := Some(now);
      if curBlock.None? {
        curBlock := Some(block);
        buf := buf + [log];
        return Buffered;
      }
      var cur := curBlock.value;
      if block == cur {
        buf := buf + [log];
        return Buffered;
      }
      if block > cur {
        r := FlushBlock(cur, buf);
        buf := [];
        curBlock := Some(block);
        buf := buf + [log];
        return r;
      }
      return LatePatch(log);
    }

    method Take() returns (r: Option<(nat, seq<Log>)>)
      modifies this
      ensures View() == Taken(old(View()))
      ensures r == if old(curBlock).None? then None else Some((old(curBlock).value, old(buf)))
    {
      if curBlock.None? {
        return None;
      }
      r := Some((curBlock.value, buf));
      curBlock, buf, lastFeedAt := None, [], None;
    }

    method SettleDeadline(now: nat) returns (deadline: nat)
      ensures deadline == Deadline(View(), now)
    {
      deadline := if lastFeedAt.Some? then lastFeedAt.value + SETTLE_MS else now + FAR_FUTURE_MS;
    }
  }

  // ---- Runs ----

  datatype Op<Log> = FeedOp(block: nat, log: Log, now: nat) | TakeOp

  function Applied<Log>(a: Acc<Log>, op: Op<Log>): Acc<Log> {
    match op
    case FeedOp(b, l, now) => Fed(a, b, l, now)
    case TakeOp => Taken(a)
  }

  function NewLog<Log>(block: nat, op: Op<Log>): seq<Log> {
    if op.FeedOp? && op.block == block then [op.log] else []
  }

  function After<Log>(ops: seq<Op<Log>>): Acc<Log> {
    if ops == [] then Acc(None, [], None)
    else Applied(After(ops[..|ops| - 1]), ops[|ops| - 1])
  }

  datatype Tagged<Log> = Tagged(block: nat, log: Log)

  function Tag<Log>(block: nat, logs: seq<Log>): (r: seq<Tagged<Log>>)
    ensures |r| == |logs| && forall i :: 0 <= i < |r| ==> r[i] == Tagged(block, logs[i])
  {
    if logs == [] then [] else Tag(block, logs[..|logs| - 1]) + [Tagged(block, logs[|logs| - 1])]
  }

  /** What one operation hands on, under the block number it is applied with. */
  function Handed<Log>(a: Acc<Log>, op: Op<Log>): seq<Tagged<Log>> {
    match op
    case FeedOp(b, l, _) =>
      (match FedOutcome(a, b, l)
       case Buffered => []
       case FlushBlock(fb, logs) => Tag(fb, logs)
       case LatePatch(late) => [Tagged(b, late)])
    case TakeOp => if a.cur.None? then [] else Tag(a.cur.value, a.buf)
  }

  function Emitted<Log>(ops: seq<Op<Log>>): seq<Tagged<Log>> {
    if ops == [] then []
    else Emitted(ops[..|ops| - 1]) + Handed(After(ops[..|ops| - 1]), ops[|ops| - 1])
  }

  /** The logs of one block among those handed on, in order. */
  function OfBlock<Log>(block: nat, ts: seq<Tagged<Log>>): seq<Log> {
    if ts == [] then []
    else
      var n := |ts| - 1;
      OfBlock(block, ts[..n]) + if ts[n].block == block then [ts[n].log] else []
  }

  /** The logs of one block in the order they were fed. */
  function FedOf<Log>(block: nat, ops: seq<Op<Log>>): seq<Log> {
    if ops == [] then []
    else FedOf(block, ops[..|ops| - 1]) + NewLog(block, ops[|ops| - 1])
  }

  function BufferedOf<Log>(block: nat, a: Acc<Log>): seq<Log> {
    if a.cur == Some(block) then a.buf else []
  }

  lemma {:induction false} OfBlockConcat<Log>(block: nat, s: seq<Tagged<Log>>, t: seq<Tagged<Log>>)
    ensures OfBlock(block, s + t) == OfBlock(block, s) + OfBlock(block, t)
    decreases |t|
  {
    if t == [] {
      assert s + t == s;
    } else {
      var n := |t| - 1;
      assert (s + t)[..|s + t| - 1] == s + t[..n];
      OfBlockConcat(block, s, t[..n]);
    }
  }

  lemma {:induction false} OfBlockTag<Log>(block: nat, tag: nat, logs: seq<Log>)
    ensures OfBlock(block, Tag(tag, logs)) == if tag == block then logs else []
    decreases |logs|
  {
    hide OfBlock;
    OfBlockEmpty<Log>(block);
    if logs != [] {
      var n := |logs| - 1;
      OfBlockTag(block, tag, logs[..n]);
      OfBlockConcat(block, Tag(tag, logs[..n]), [Tagged(tag, logs[n])]);
      OfBlockOne(block, Tagged(tag, logs[n]));
      assert logs == logs[..n] + [logs[n]];
    }
  }

  lemma OfBlockEmpty<Log>(block: nat)
    ensures OfBlock<Log>(block, []) == []
  {
  }

  lemma OfBlockOne<Log>(block: nat, t: Tagged<Log>)
    ensures OfBlock(block, [t]) == if t.block == block then [t.log] else []
  {
    assert [t][..0] == [];
  }

  /** The buffer is empty exactly between blocks, and then no settle deadline is pending. */
  lemma {:induction false} WellFormed<Log>(ops: seq<Op<Log>>)
    ensures var a := After(ops); (a.cur.None? <==> a.buf == []) && (a.cur.None? <==> a.lastFeedAt.None?)
    decreases |ops|
  {
    if ops != [] {
      WellFormed(ops[..|ops| - 1]);
    }
  }

  /** One operation conserves every block: buffered before plus fed is handed on plus buffered after. */
  lemma StepConserves<Log>(block: nat, a: Acc<Log>, op: Op<Log>)
    requires a.cur.None? ==> a.buf == []
    ensures OfBlock(block, Handed(a, op)) + BufferedOf(block, Applied(a, op))
            == BufferedOf(block, a) + NewLog(block, op)
  {
    hide OfBlock, Tag;
    OfBlockEmpty<Log>(block);
    match op
    case TakeOp =>
      if a.cur.Some? {
        OfBlockTag(block, a.cur.value, a.buf);
      }
    case FeedOp(b, l, _) =>
      match FedOutcome(a, b, l)
      case Buffered =>
      case FlushBlock(fb, logs) => OfBlockTag(block, fb, logs);
      case LatePatch(late) => OfBlockOne(block, Tagged(b, late));
  }

  /**
   Conservation: for every block, what was handed on followed by what is still buffered is exactly
   what was fed of that block, in order.
   */
  lemma {:induction false} Conservation<Log>(ops: seq<Op<Log>>, block: nat)
    ensures OfBlock(block, Emitted(ops)) + BufferedOf(block, After(ops)) == FedOf(block, ops)
    decreases |ops|
  {
    hide Handed, OfBlock, BufferedOf, Applied, NewLog;
    if ops != [] {
      var init, op := ops[..|ops| - 1], ops[|ops| - 1];
      var a := After(init);
      Conservation(init, block);
      WellFormed(init);
      OfBlockConcat(block, Emitted(init), Handed(a, op));
      StepConserves(block, a, op);
      assert Emitted(ops) == Emitted(init) + Handed(a, op);
      assert After(ops) == Applied(a, op);
      assert FedOf(block, ops) == FedOf(block, init) + NewLog(block, op);
      var e, h := OfBlock(block, Emitted(init)), OfBlock(block, Handed(a, op));
      var held, after, added := BufferedOf(block, a), BufferedOf(block, Applied(a, op)), NewLog(block, op);
      assert (e + h) + after == e + (h + after) == e + (held + added) == (e + held) + added;
    } else {
      NothingYet<Log>(block);
    }
  }

  lemma NothingYet<Log>(block: nat)
    ensures OfBlock<Log>(block, []) + BufferedOf<Log>(block, Acc(None, [], None)) == []
  {
  }

  /** The blocks flushed by later blocks since the last successful take. */
  function Flushes<Log>(ops: seq<Op<Log>>): seq<nat> {
    if ops == [] then []
    else
      var init := ops[..|ops| - 1];
      match ops[|ops| - 1]
      case TakeOp => if After(init).cur.Some? then [] else Flushes(init)
      case FeedOp(b, l, _) =>
        Flushes(init) + if FedOutcome(After(init), b, l).FlushBlock? then [FedOutcome(After(init), b, l).block] else []
  }

  /** Strictly increasing, and below the current block, which exists if there is any. */
  ghost predicate RisingBelow(fs: seq<nat>, cur: Option<nat>) {
    && (forall i, j :: 0 <= i < j < |fs| ==> fs[i] < fs[j])
    && (forall i :: 0 <= i < |fs| ==> cur.Some? && fs[i] < cur.value)
  }

  /** Between two takes flushed block numbers strictly increase and stay below the current block. */
  lemma {:induction false} FlushesIncrease<Log>(ops: seq<Op<Log>>)
    ensures RisingBelow(Flushes(ops), After(ops).cur)
    decreases |ops|
  {
    if ops == [] {
      assert Flushes(ops) == [];
    } else {
      var init, op := ops[..|ops| - 1], ops[|ops| - 1];
      FlushesIncrease(init);
      var before, now := Flushes(init), Flushes(ops);
      var a := After(init);
      assert After(ops) == Applied(a, op);
      if op.FeedOp? && FedOutcome(a, op.block, op.log).FlushBlock? {
        assert now == before + [a.cur.value];
      }
    }
  }

  /** A batch is never empty and never mixes blocks: it is the unhanded rest of its own block. */
  lemma BatchIsWholeRest<Log>(ops: seq<Op<Log>>, op: Op<Log>)
    requires op.TakeOp? ==> After(ops).cur.Some?
    requires op.FeedOp? ==> FedOutcome(After(ops), op.block, op.log).FlushBlock?
    ensures
      var block := After(ops).cur.value;
      var batch := Handed(After(ops), op);
      && batch != [] && (forall t :: t in batch ==> t.block == block)
      && OfBlock(block, Emitted(ops)) + OfBlock(block, batch) == FedOf(block, ops)
  {
    WellFormed(ops);
    var a := After(ops);
    Conservation(ops, a.cur.value);
    OfBlockTag(a.cur.value, a.cur.value, a.buf);
  }

  // ---- The clock ----

  /** Over every run the deadline follows from the last operation alone: any arrival restarts the window. */
  lemma ClockIsLastArrival<Log>(ops: seq<Op<Log>>, now: nat)
    ensures
      Deadline(After(ops), now) ==
        if ops != [] && ops[|ops| - 1].FeedOp? then ops[|ops| - 1].now + SETTLE_MS else now + FAR_FUTURE_MS
  {
    if ops != [] {
      WellFormed(ops[..|ops| - 1]);
    }
  }

  /** Arrivals of blocks older than the one `a` buffers. */
  ghost predicate AllLate<Log>(a: Acc<Log>, ops: seq<Op<Log>>) {
    forall op :: op in ops ==> op.FeedOp? && FedOutcome(a, op.block, op.log).LatePatch?
  }

  /** The logs of the operations, each under its own block. */
  function OwnLogs<Log>(ops: seq<Op<Log>>): seq<Tagged<Log>> {
    if ops == [] then []
    else
      var op := ops[|ops| - 1];
      OwnLogs(ops[..|ops| - 1]) + if op.FeedOp? then [Tagged(op.block, op.log)] else []
  }

  lemma OneMore<Log>(ops: seq<Op<Log>>, late: seq<Op<Log>>)
    requires late != []
    ensures
      var init, op := ops + late[..|late| - 1], late[|late| - 1];
      && After(ops + late) == Applied(After(init), op)
      && Emitted(ops + late) == Emitted(init) + Handed(After(init), op)
  {
    assert (ops + late)[..|ops + late| - 1] == ops + late[..|late| - 1];
  }

  /**
   Late logs of older blocks are handed on alone and leave the buffered block as it is, but each of
   them postpones its settling: after any number of them it is due a window after the last.
   */
  lemma {:induction false} LatePatchesPostpone<Log>(ops: seq<Op<Log>>, late: seq<Op<Log>>, now: nat)
    requires late != [] && AllLate(After(ops), late)
    ensures After(ops + late) == After(ops).(lastFeedAt := Some(late[|late| - 1].now))
    ensures Deadline(After(ops + late), now) == late[|late| - 1].now + SETTLE_MS
    ensures Emitted(ops + late) == Emitted(ops) + OwnLogs(late)
    decreases |late|
  {
    hide After, Emitted;
    var n := |late| - 1;
    var init := late[..n];
    OneMore(ops, late);
    assert late[n] in late;
    if n > 0 {
      assert forall op :: op in init ==> op in late;
      LatePatchesPostpone(ops, init, now);
    } else {
      assert ops + init == ops;
    }
  }

  /** When the buffered block's own last log arrived. */
  function OwnLast<Log>(ops: seq<Op<Log>>): Option<nat> {
    if ops == [] then None
    else
      var init := ops[..|ops| - 1];
      match ops[|ops| - 1]
      case TakeOp => None
      case FeedOp(b, l, now) => if FedOutcome(After(init), b, l).LatePatch? then OwnLast(init) else Some(now)
  }

  /** A buffered block has an own last log, and the run ends with an arrival. */
  lemma {:induction false} OwnLastExists<Log>(ops: seq<Op<Log>>)
    requires After(ops).cur.Some?
    ensures OwnLast(ops).Some? && ops != [] && ops[|ops| - 1].FeedOp?
    decreases |ops|
  {
    var init := ops[..|ops| - 1];
    WellFormed(init);
    if After(init).cur.Some? {
      OwnLastExists(init);
    }
  }

  /**
   The buffered block is due a window after its own last log exactly when nothing arrived at a later
   time; in particular when the last arrival was no late one.
   */
  lemma OwnWindowExactly<Log>(ops: seq<Op<Log>>, now: nat)
    requires After(ops).cur.Some?
    ensures OwnLast(ops).Some? && ops != [] && ops[|ops| - 1].FeedOp?
    ensures Deadline(After(ops), now) == OwnLast(ops).value + SETTLE_MS <==> ops[|ops| - 1].now == OwnLast(ops).value
    ensures
      var op := ops[|ops| - 1];
      !FedOutcome(After(ops[..|ops| - 1]), op.block, op.log).LatePatch? ==>
        Deadline(After(ops), now) == OwnLast(ops).value + SETTLE_MS
  {
    hide After;
    OwnLastExists(ops);
    ClockIsLastArrival(ops, now);
  }

  // ---- Which block is held, and what is handed on when ----

  function NewTop<Log>(h: Option<nat>, op: Op<Log>): Option<nat> {
    match op
    case TakeOp => None
    case FeedOp(b, _, _) => if h.None? || h.value < b then Some(b) else h
  }

  /** The highest block fed since the last take. */
  function Highest<Log>(ops: seq<Op<Log>>): Option<nat> {
    if ops == [] then None else NewTop(Highest(ops[..|ops| - 1]), ops[|ops| - 1])
  }

  /** The block held is the highest one since the last take: a log of a newer block always takes over. */
  lemma {:induction false} HeldIsHighest<Log>(ops: seq<Op<Log>>)
    ensures After(ops).cur == Highest(ops)
    decreases |ops|
  {
    if ops != [] {
      HeldIsHighest(ops[..|ops| - 1]);
    }
  }

  /** Of every other block all logs fed so far have been handed on: a newer block flushes the older ones at once. */
  lemma OthersHandedOn<Log>(ops: seq<Op<Log>>, block: nat)
    requires Highest(ops) != Some(block)
    ensures OfBlock(block, Emitted(ops)) == FedOf(block, ops)
  {
    HeldIsHighest(ops);
    Conservation(ops, block);
  }

  /** The logs of `block` since the last take, in order. */
  function SinceTake<Log>(block: nat, ops: seq<Op<Log>>): seq<Log> {
    if ops == [] || ops[|ops| - 1].TakeOp? then []
    else SinceTake(block, ops[..|ops| - 1]) + NewLog(block, ops[|ops| - 1])
  }

  /** Of the highest block everything fed since the last take is held back, and nothing else. */
  lemma {:induction false} HeldBack<Log>(ops: seq<Op<Log>>)
    ensures Highest(ops).None? ==> After(ops).buf == []
    ensures Highest(ops).Some? ==> After(ops).buf == SinceTake(Highest(ops).value, ops)
    ensures forall b: nat :: (Highest(ops).None? || Highest(ops).value < b) ==> SinceTake(b, ops) == []
    decreases |ops|
  {
    if ops != [] {
      HeldBack(ops[..|ops| - 1]);
      HeldIsHighest(ops[..|ops| - 1]);
    }
  }
}
