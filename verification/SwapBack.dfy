/**
 The event-driven swapBack balance of a token contract: a snapshot, then transfers applied under a
 position watermark. Replays of the event stream must not change the balance.
 */
module SwapBack {
  import opened Wrappers
  import opened SwapMath
  import FotTax

  type Address = FotTax.Address

  const U64_MAX: nat := 0xFFFF_FFFF_FFFF_FFFF

  /** A chain position; positions are ordered by block, then transaction, then log. */
  datatype Position = Position(block: nat, tx: nat, log: nat)

  predicate Before(p: Position, q: Position) {
    p.block < q.block || (p.block == q.block && (p.tx < q.tx || (p.tx == q.tx && p.log < q.log)))
  }

  datatype Entry = Entry(balance: nat, lastApplied: Position)

  datatype Transfer = Transfer(from: Address, to: Address, value: nat, pos: Position)

  predicate IsDump(token: Address, e: Transfer) {
    e.from == token
  }

  predicate IsInflow(token: Address, e: Transfer) {
    e.from != token && e.to == token
  }

  function Saturate(n: nat): nat {
    if n < TWO256 then n else TWO256 - 1
  }

  /** One transfer applied to one token's entry. */
  function Applied(token: Address, s: Entry, e: Transfer): Entry {
    if !Before(s.lastApplied, e.pos) then s
    else if IsDump(token, e) then Entry(0, e.pos)
    else if IsInflow(token, e) then Entry(Saturate(s.balance + e.value), e.pos)
    else Entry(s.balance, e.pos)
  }

  const UNSEEN: Entry := Entry(0, Position(0, 0, 0))

  /** A token without an entry gets one on its first transfer. */
  function EntryOf(entries: map<Address, Entry>, token: Address): Entry {
    if token in entries then entries[token] else UNSEEN
  }

  /** The balance cache of all tokens. */
  class Ledger {
    var entries: map<Address, Entry>

    constructor ()
      ensures entries == map[]
    {
      entries := map[];
    }

    /** `init_swap_back_balance_snapshot`: the watermark is the end of the snapshot's block. */
    method InitSnapshot(token: Address, balance: nat, block: nat)
      modifies this
      ensures entries == old(entries)[token := Entry(balance, Position(block, U64_MAX, U64_MAX))]
    {
      entries := entries[token := Entry(balance, Position(block, U64_MAX, U64_MAX))];
    }

    /** `apply_swap_back_transfer`. */
    method ApplyTransfer(token: Address, from: Address, to: Address, value: nat, pos: Position)
      modifies this
      ensures var e := Transfer(from, to, value, pos);
              entries == old(entries)[token := Applied(token, EntryOf(old(entries), token), e)]
    {
      if token !in entries {
        entries := entries[token := UNSEEN];
      }
      var state := entries[token];
      if !Before(state.lastApplied, pos) {
        return;
      }
      if from != token && to == token {
        var sum := state.balance + value;
        state := state.(balance := if sum < TWO256 then sum else TWO256 - 1);
      } else if from == token {
        state := state.(balance := 0);
      }
      entries := entries[token := state.(lastApplied := pos)];
    }

    /** The event stream of one token, as it arrives. */
    method ApplyAll(token: Address, arrivals: seq<Transfer>)
      modifies this
      ensures entries == if arrivals == [] then old(entries)
                         else old(entries)[token := Delivered(token, EntryOf(old(entries), token), arrivals)]
    {
      var i := 0;
      while i < |arrivals|
        invariant 0 <= i <= |arrivals|
        invariant entries == if i == 0 then old(entries)
                             else old(entries)[token := Delivered(token, EntryOf(old(entries), token), arrivals[..i])]
      {
        var e := arrivals[i];
        ApplyTransfer(token, e.from, e.to, e.value, e.pos);
        assert arrivals[..i + 1][..i] == arrivals[..i];
        i := i + 1;
      }
      assert arrivals[..i] == arrivals;
    }
  }

  // ---- Streams ----

  /** The entry after a stream of arrivals. */
  function Delivered(token: Address, s: Entry, arrivals: seq<Transfer>): Entry {
    if arrivals == [] then s
    else Applied(token, Delivered(token, s, arrivals[..|arrivals| - 1]), arrivals[|arrivals| - 1])
  }

  /** Each arrival is older than the snapshot, repeats an earlier one, or is beyond all earlier ones. */
  ghost predicate Orderly(mark: Position, arrivals: seq<Transfer>) {
    forall i {:trigger arrivals[i]} :: 0 <= i < |arrivals| ==>
      || !Before(mark, arrivals[i].pos)
      || arrivals[i] in arrivals[..i]
      || (forall j :: 0 <= j < i ==> Before(arrivals[j].pos, arrivals[i].pos))
  }

  /** The transfers after the snapshot, each once, in position order. */
  ghost predicate Canonical(mark: Position, arrivals: seq<Transfer>, canon: seq<Transfer>) {
    && (forall e :: e in canon <==> e in arrivals && Before(mark, e.pos))
    && Ascending(canon)
  }

  ghost predicate Ascending(canon: seq<Transfer>) {
    forall i, j :: 0 <= i < j < |canon| ==> Before(canon[i].pos, canon[j].pos)
  }

  /** Where the last dump is, if any. */
  function LastDump(token: Address, canon: seq<Transfer>): (r: Option<nat>)
    ensures r.Some? ==> r.value < |canon| && IsDump(token, canon[r.value])
    ensures forall i :: 0 <= i < |canon| && IsDump(token, canon[i]) ==> r.Some? && i <= r.value
  {
    if canon == [] then None
    else
      var n := |canon| - 1;
      if IsDump(token, canon[n]) then Some(n) else LastDump(token, canon[..n])
  }

  function Inflows(token: Address, es: seq<Transfer>): nat {
    if es == [] then 0
    else
      var n := |es| - 1;
      Inflows(token, es[..n]) + if IsInflow(token, es[n]) then es[n].value else 0
  }

  /** What the token contract holds: the inflows since its last dump, or the snapshot and all inflows. */
  function Held(token: Address, snapshot: nat, canon: seq<Transfer>): nat {
    match LastDump(token, canon)
    case Some(d) => Saturate(Inflows(token, canon[d + 1..]))
    case None => Saturate(snapshot + Inflows(token, canon))
  }

  lemma HeldExtends(token: Address, snapshot: nat, canon: seq<Transfer>, e: Transfer)
    requires snapshot < TWO256
    ensures
      var h := Held(token, snapshot, canon);
      Held(token, snapshot, canon + [e]) ==
        if IsDump(token, e) then 0 else if IsInflow(token, e) then Saturate(h + e.value) else h
  {
    var more := canon + [e];
    var n := |canon|;
    assert more[..n] == canon;
    match LastDump(token, more)
    case Some(d) =>
      if d < n {
        assert more[d + 1..] == canon[d + 1..] + [e];
        assert more[d + 1..][..n - d - 1] == canon[d + 1..];
      } else {
        assert more[d + 1..] == [];
      }
    case None =>
  }

  /** Strictly ascending sequences with the same elements are the same. */
  lemma {:induction false} AscendingUnique(a: seq<Transfer>, b: seq<Transfer>)
    requires Ascending(a) && Ascending(b) && forall e :: e in a <==> e in b
    ensures a == b
    decreases |a|
  {
    assert b == [] || b[0] in a;
    if a != [] {
      var m, n := |a| - 1, |b| - 1;
      LastIsGreatest(b, a[m]);
      LastIsGreatest(a, b[n]);
      forall e ensures e in a[..m] <==> e in b[..n] {
        InitElements(a, e);
        InitElements(b, e);
      }
      AscendingUnique(a[..m], b[..n]);
      assert a == a[..m] + [a[m]] && b == b[..n] + [b[n]];
    }
  }

  lemma LastIsGreatest(a: seq<Transfer>, e: Transfer)
    requires Ascending(a) && e in a
    ensures e == a[|a| - 1] || Before(e.pos, a[|a| - 1].pos)
  {
  }

  lemma InitElements(a: seq<Transfer>, e: Transfer)
    requires a != [] && Ascending(a)
    ensures e in a[..|a| - 1] <==> e in a && e != a[|a| - 1]
  {
  }

  /** The new events of a stream in arrival order: those beyond everything before them. */
  ghost function Fresh(mark: Position, arrivals: seq<Transfer>): seq<Transfer> {
    if arrivals == [] then []
    else
      var n := |arrivals| - 1;
      var c := Fresh(mark, arrivals[..n]);
      if Before(Watermark(mark, c), arrivals[n].pos) then c + [arrivals[n]] else c
  }

  function Watermark(mark: Position, canon: seq<Transfer>): Position {
    if canon == [] then mark else canon[|canon| - 1].pos
  }

  /** The fresh events ascend, lie after the snapshot, and all did arrive. */
  lemma {:induction false} FreshFacts(mark: Position, arrivals: seq<Transfer>)
    ensures
      var c := Fresh(mark, arrivals);
      && Ascending(c)
      && (forall e :: e in c ==> Before(mark, e.pos) && e in arrivals)
    decreases |arrivals|
  {
    if arrivals != [] {
      var n := |arrivals| - 1;
      FreshFacts(mark, arrivals[..n]);
      var c := Fresh(mark, arrivals[..n]);
      var e := arrivals[n];
      if Before(Watermark(mark, c), e.pos) {
        AscendingExtends(mark, c, e);
      }
      assert arrivals == arrivals[..n] + [e];
    }
  }

  lemma AscendingExtends(mark: Position, c: seq<Transfer>, e: Transfer)
    requires Ascending(c) && Before(Watermark(mark, c), e.pos)
    requires forall x :: x in c ==> Before(mark, x.pos)
    ensures Ascending(c + [e]) && Before(mark, e.pos)
  {
    var d := c + [e];
    forall i, j | 0 <= i < j < |d| ensures Before(d[i].pos, d[j].pos) {
      if j == |c| {
        assert i == |c| - 1 || Before(c[i].pos, c[|c| - 1].pos);
      }
    }
  }

  /** Whatever arrives, the entry holds one pass over the fresh events. */
  lemma {:induction false} DeliveredHolds(token: Address, snapshot: nat, mark: Position, arrivals: seq<Transfer>)
    requires snapshot < TWO256
    ensures
      var c := Fresh(mark, arrivals);
      Delivered(token, Entry(snapshot, mark), arrivals) == Entry(Held(token, snapshot, c), Watermark(mark, c))
    decreases |arrivals|
  {
    hide Held, Before;
    if arrivals != [] {
      var n := |arrivals| - 1;
      DeliveredHolds(token, snapshot, mark, arrivals[..n]);
      HeldExtends(token, snapshot, Fresh(mark, arrivals[..n]), arrivals[n]);
    } else {
      HeldNothing(token, snapshot);
    }
  }

  lemma HeldNothing(token: Address, snapshot: nat)
    requires snapshot < TWO256
    ensures Held(token, snapshot, []) == snapshot
  {
  }

  /** The arrivals of later blocks. */
  function Later(block: nat, arrivals: seq<Transfer>): seq<Transfer> {
    if arrivals == [] then []
    else
      var n := |arrivals| - 1;
      Later(block, arrivals[..n]) + if arrivals[n].pos.block > block then [arrivals[n]] else []
  }

  /** The chain's own positions are 64-bit numbers. */
  predicate OnChain(e: Transfer) {
    e.pos.tx <= U64_MAX && e.pos.log <= U64_MAX
  }

  /** A snapshot at the end of a block stands for the whole block: exactly the later blocks still count. */
  lemma {:induction false} SnapshotCoversBlock(token: Address, balance: nat, block: nat, arrivals: seq<Transfer>)
    requires forall e :: e in arrivals ==> OnChain(e)
    ensures
      var mark := Entry(balance, Position(block, U64_MAX, U64_MAX));
      var end := Delivered(token, mark, arrivals);
      && end == Delivered(token, mark, Later(block, arrivals))
      && if Later(block, arrivals) == [] then end == mark else end.lastApplied.block > block
    decreases |arrivals|
  {
    if arrivals != [] {
      var init, e := arrivals[..|arrivals| - 1], arrivals[|arrivals| - 1];
      SnapshotCoversBlock(token, balance, block, init);
      var l := Later(block, init);
      assert e in arrivals;
      if e.pos.block > block {
        assert (l + [e])[..|l + [e]| - 1] == l;
      } else {
        assert l + [] == l;
      }
    }
  }

  lemma OrderlyInit(mark: Position, arrivals: seq<Transfer>)
    requires arrivals != [] && Orderly(mark, arrivals)
    ensures Orderly(mark, arrivals[..|arrivals| - 1])
  {
    var init := arrivals[..|arrivals| - 1];
    forall i | 0 <= i < |init|
      ensures !Before(mark, init[i].pos) || init[i] in init[..i]
              || (forall j :: 0 <= j < i ==> Before(init[j].pos, init[i].pos))
    {
      assert init[i] == arrivals[i] && init[..i] == arrivals[..i];
    }
  }

  /** A token never seen before starts from nothing at the first position there is. */
  lemma UnseenToken(entries: map<Address, Entry>, token: Address, arrivals: seq<Transfer>)
    requires token !in entries
    ensures
      var c := Fresh(Position(0, 0, 0), arrivals);
      Delivered(token, EntryOf(entries, token), arrivals) ==
        Entry(Held(token, 0, c), Watermark(Position(0, 0, 0), c))
  {
    DeliveredHolds(token, 0, Position(0, 0, 0), arrivals);
  }

  /** In an orderly stream the fresh events are all events after the snapshot. */
  lemma {:induction false} OrderlyFresh(mark: Position, arrivals: seq<Transfer>)
    requires Orderly(mark, arrivals)
    ensures forall e :: e in arrivals && Before(mark, e.pos) ==> e in Fresh(mark, arrivals)
    decreases |arrivals|
  {
    hide Before, Orderly, Watermark;
    if arrivals != [] {
      var n := |arrivals| - 1;
      var init := arrivals[..n];
      OrderlyInit(mark, arrivals);
      OrderlyFresh(mark, init);
      FreshFacts(mark, init);
      if Before(mark, arrivals[n].pos) && arrivals[n] !in init {
        NewIsBeyond(mark, arrivals, Fresh(mark, init));
      }
      assert arrivals == init + [arrivals[n]];
    }
  }

  /** An orderly event not seen before lies beyond the watermark of what was. */
  lemma NewIsBeyond(mark: Position, arrivals: seq<Transfer>, c: seq<Transfer>)
    requires arrivals != [] && Orderly(mark, arrivals)
    requires var e := arrivals[|arrivals| - 1]; Before(mark, e.pos) && e !in arrivals[..|arrivals| - 1]
    requires forall e :: e in c ==> e in arrivals[..|arrivals| - 1]
    ensures Before(Watermark(mark, c), arrivals[|arrivals| - 1].pos)
  {
    if c != [] {
      var l := c[|c| - 1];
      assert l in c;
      var j :| 0 <= j < |arrivals| - 1 && arrivals[j] == l;
    }
  }

  /**
   Replay equivalence: however an orderly stream repeats itself, the final balance is one pass over
   the canonical events after the snapshot.
   */
  lemma ReplayEquivalence(token: Address, snapshot: nat, mark: Position, arrivals: seq<Transfer>, canon: seq<Transfer>)
    requires snapshot < TWO256 && Orderly(mark, arrivals) && Canonical(mark, arrivals, canon)
    ensures Delivered(token, Entry(snapshot, mark), arrivals)
            == Entry(Held(token, snapshot, canon), Watermark(mark, canon))
  {
    DeliveredHolds(token, snapshot, mark, arrivals);
    FreshFacts(mark, arrivals);
    OrderlyFresh(mark, arrivals);
    AscendingUnique(Fresh(mark, arrivals), canon);
  }

  /** After a dump the balance no longer depends on the snapshot. */
  lemma DumpForgetsSnapshot(token: Address, snapshot: nat, other: nat, mark: Position, arrivals: seq<Transfer>,
                            canon: seq<Transfer>)
    requires snapshot < TWO256 && other < TWO256 && Orderly(mark, arrivals) && Canonical(mark, arrivals, canon)
    requires exists e :: e in arrivals && Before(mark, e.pos) && IsDump(token, e)
    ensures Delivered(token, Entry(snapshot, mark), arrivals) == Delivered(token, Entry(other, mark), arrivals)
  {
    ReplayEquivalence(token, snapshot, mark, arrivals, canon);
    ReplayEquivalence(token, other, mark, arrivals, canon);
    var e :| e in arrivals && Before(mark, e.pos) && IsDump(token, e);
    assert e in canon;
  }

  // ---- The balance in the fields of the transfers ----

  /** What the token contract received from others. */
  function Received(token: Address, es: seq<Transfer>): nat {
    if es == [] then 0
    else (if es[0].to == token && es[0].from != token then es[0].value else 0) + Received(token, es[1..])
  }

  lemma {:induction false} ReceivedExtends(token: Address, es: seq<Transfer>, e: Transfer)
    ensures Received(token, es + [e]) == Received(token, es) + if e.to == token && e.from != token then e.value else 0
    decreases |es|
  {
    if es != [] {
      assert (es + [e])[1..] == es[1..] + [e];
      ReceivedExtends(token, es[1..], e);
    }
  }

  lemma {:induction false} InflowsAreReceived(token: Address, es: seq<Transfer>)
    ensures Inflows(token, es) == Received(token, es)
    decreases |es|
  {
    if es != [] {
      var init := es[..|es| - 1];
      InflowsAreReceived(token, init);
      ReceivedExtends(token, init, es[|es| - 1]);
      assert init + [es[|es| - 1]] == es;
    }
  }

  /** The token contract sent something away in transfer d and nothing afterwards. */
  ghost predicate LastSent(token: Address, canon: seq<Transfer>, d: int)
    requires 0 <= d < |canon|
  {
    canon[d].from == token && forall i :: d < i < |canon| ==> canon[i].from != token
  }

  /**
   The balance held, in the fields: what came in from others after the token contract last sent something
   away, or the snapshot and all that came in, each cut at 256 bits.
   */
  lemma HeldInFields(token: Address, snapshot: nat, canon: seq<Transfer>)
    ensures (forall e :: e in canon ==> e.from != token) ==>
              Held(token, snapshot, canon) == Min(snapshot + Received(token, canon), TWO256 - 1)
    ensures forall d :: 0 <= d < |canon| && LastSent(token, canon, d) ==>
              Held(token, snapshot, canon) == Min(Received(token, canon[d + 1..]), TWO256 - 1)
  {
    InflowsAreReceived(token, canon);
    forall d | 0 <= d < |canon| && LastSent(token, canon, d)
      ensures Held(token, snapshot, canon) == Min(Received(token, canon[d + 1..]), TWO256 - 1)
    {
      assert IsDump(token, canon[d]);
      var r := LastDump(token, canon);
      assert r.value == d;
      InflowsAreReceived(token, canon[d + 1..]);
    }
  }

  /** Positions on chain are ordered as the numbers written block, transaction, log. */
  lemma OrderOfPositions(p: Position, q: Position)
    requires p.tx <= U64_MAX && p.log <= U64_MAX && q.tx <= U64_MAX && q.log <= U64_MAX
    ensures
      var base := 0x1_0000_0000_0000_0000;
      Before(p, q) <==> (p.block * base + p.tx) * base + p.log < (q.block * base + q.tx) * base + q.log
  {
  }
}
