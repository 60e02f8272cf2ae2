/**
 The Caliber ladder quotes: both directions as recursive functions over the rungs, and the proofs
 that they are monotone, bounded, and never give back more than was put in.
 */
module Caliber {
  import opened Wrappers
  import opened SwapMath

  const MILLION: nat := 1_000_000
  const BILLION: nat := 1_000_000_000

  datatype Rung = Rung(x: int, y: nat)

  /** One side of the book; `pos` counts only in the block it was written in. */
  datatype Book = Book(ladder: seq<Rung>, win: nat, field0: nat, field1: int, scale: nat, fee: nat,
                       pos: nat, posIsCurrent: bool, rx: nat, ry: nat) {

    /** The x coordinate where rung i ends. */
    function XNext(i: nat): int
      requires i < |ladder|
    {
      if i + 1 < |ladder| then ladder[i + 1].x else ladder[i].x + win
    }

    predicate Valid() {
      && ladder != [] && field0 >= 1 && scale >= 1 && fee <= MILLION
      && (forall i :: 0 <= i < |ladder| ==> ladder[i].y >= 1 && ladder[i].x + field1 >= 0 && ladder[i].x <= XNext(i))
    }

    /** Rung i of the forward side has a price: the discounts at its ends are positive on average. */
    predicate Priced(i: nat)
      requires i < |ladder|
    {
      ladder[i].x + XNext(i) + 2 * field1 < 2 * MILLION
    }

    /** The extrapolation beyond the last rung has no negative price. */
    predicate TailPriced()
      requires ladder != []
    {
      XNext(|ladder| - 1) + field1 <= MILLION
    }

    function Position(): nat {
      if posIsCurrent then pos else 0
    }

    /** Input units per output unit at the mid price: `field0 / Unit` is the mid. */
    function Unit(): (r: nat)
      ensures scale >= 1 ==> r >= 1
    {
      BILLION * scale
    }
  }

  /** The input after the fee. */
  function Net(p: Book, w: nat): (r: nat)
    requires p.fee <= MILLION
    ensures r <= w
  {
    FeeFits(w, p.fee);
    w - w * p.fee / MILLION
  }

  lemma FeeFits(w: nat, fee: nat)
    requires fee <= MILLION
    ensures w * fee / MILLION <= w
  {
    MulMonotone(w, fee, MILLION);
    FloorAtMost(w * fee, MILLION, w);
  }

  lemma NetMonotone(p: Book, v: nat, w: nat)
    requires p.fee <= MILLION && v <= w
    ensures Net(p, v) <= Net(p, w)
  {
    var d := w - v;
    assert w * p.fee == v * p.fee + d * p.fee;
    MulMonotone(d, p.fee, MILLION);
    var k := v * p.fee / MILLION;
    DivFacts(v * p.fee, MILLION);
    FloorAtLeast(w * p.fee, MILLION, k + d + 1);
  }

  /** The shape of both partial fills. */
  function Fill(r: nat, e: nat, c: nat, d: nat): nat
    requires c >= 1
  {
    (r * e) / (c + r * d)
  }

  /** A fill with gain at most its base gives at most r. */
  lemma FillAtMost(r: nat, e: nat, c: nat, d: nat)
    requires 1 <= c && e <= c
    ensures Fill(r, e, c, d) <= r
  {
    MulMonotone(r, e, c + r * d);
    FloorAtMost(r * e, c + r * d, r);
  }

  /** A fill grows with r. */
  lemma FillMonotone(r: nat, s: nat, e: nat, c: nat, d: nat)
    requires r <= s && c >= 1
    ensures Fill(r, e, c, d) <= Fill(s, e, c, d)
  {
    var q := Fill(r, e, c, d);
    DivFacts(r * e, c + r * d);
    SlopeBound(r, e, c, d, q);
    FillStep(r, s - r, e, c, d, q);
    FloorAtLeast(s * e, c + s * d, q);
  }

  lemma FillStep(r: nat, t: nat, e: nat, c: nat, d: nat, q: nat)
    requires (c + r * d) * q <= r * e && d * q <= e
    ensures (c + (r + t) * d) * q <= (r + t) * e
  {
    var x := c + r * d;
    SumTimes(r, t, d);
    SumTimes(x, t * d, q);
    Regroup(t, d, q);
    SumTimes(r, t, e);
    MulMonotone(t, d * q, e);
  }

  lemma SumTimes(a: nat, b: nat, c: nat)
    ensures (a + b) * c == a * c + b * c
  {
  }

  lemma Regroup(a: nat, b: nat, c: nat)
    ensures (a * b) * c == a * (b * c)
  {
  }

  lemma SlopeBound(r: nat, e: nat, c: nat, d: nat, q: nat)
    requires c >= 1 && (c + r * d) * q <= r * e
    ensures d * q <= e
  {
    SumTimes(c, r * d, q);
    Regroup(r, d, q);
    if r == 0 {
      assert q == 0 by {
        MulMonotone(q, 1, c);
      }
    } else {
      Cancel(r, d * q, e);
    }
  }

  // ---- Forward ----

  /** The discount factor (out of a million) at x. */
  function Discount(p: Book, x: int): int {
    MILLION - (x + p.field1)
  }

  /** A rung of the forward side is well defined: discounts fall along it from a positive one. */
  lemma DiscountFacts(p: Book, i: nat)
    requires p.Valid() && i < |p.ladder| && p.Priced(i)
    ensures Discount(p, p.XNext(i)) <= Discount(p, p.ladder[i].x) <= MILLION
    ensures 0 < Discount(p, p.ladder[i].x) && 0 < Discount(p, p.ladder[i].x) + Discount(p, p.XNext(i))
  {
  }

  /** Output a rung is worth before the discount, `P` in the source. */
  function RungWorth(p: Book, i: nat): nat
    requires p.Valid() && i < |p.ladder| && p.Priced(i)
  {
    DiscountFacts(p, i);
    (MILLION * 2 * p.ladder[i].y) / (Discount(p, p.ladder[i].x) + Discount(p, p.XNext(i)))
  }

  /** The input that buys the whole rung, rounded up. */
  function Threshold(p: Book, i: nat): nat
    requires p.Valid() && i < |p.ladder| && p.Priced(i)
  {
    CeilDiv(RungWorth(p, i) * p.Unit(), p.field0)
  }

  /** What an input buys at the mid price, rounded down. */
  function AtMid(p: Book, xp: nat): nat
    requires p.Valid()
  {
    p.field0 * xp / p.Unit()
  }

  /** The partial fill of a rung by an input below its threshold. */
  function PartialFill(p: Book, i: nat, xp: nat): nat
    requires p.Valid() && i < |p.ladder| && p.Priced(i)
  {
    DiscountFacts(p, i);
    var a, b := Discount(p, p.ladder[i].x), Discount(p, p.XNext(i));
    var r := AtMid(p, xp);
    Fill(r, 2 * p.ladder[i].y * a, MILLION * 2 * p.ladder[i].y, a - b)
  }

  /** Beyond the last rung the last discount goes on. */
  function ForwardTail(p: Book, xp: nat): int
    requires p.Valid()
  {
    p.field0 * xp * Discount(p, p.XNext(|p.ladder| - 1)) / (p.Unit() * MILLION)
  }

  function MinInt(a: int, b: int): int {
    if a < b then a else b
  }

  /** An amount already bought, and what the rest brings, if there is a quote for it. */
  function Plus(a: int, b: Option<int>): Option<int> {
    if b.None? then None else Some(a + b.value)
  }

  function Capped(q: Option<int>, reserve: nat): Option<int> {
    if q.None? then None else Some(MinInt(q.value, reserve))
  }

  /** What input xp buys from rung i on, if every rung it reaches has a price. */
  function ForwardFrom(p: Book, i: nat, xp: nat): Option<int>
    requires p.Valid() && i <= |p.ladder|
    decreases |p.ladder| - i
  {
    if i == |p.ladder| then Some(ForwardTail(p, xp))
    else if !p.Priced(i) then None
    else if xp >= Threshold(p, i) then Plus(p.ladder[i].y, ForwardFrom(p, i + 1, xp - Threshold(p, i)))
    else Some(PartialFill(p, i, xp))
  }

  function Forward(p: Book, w: nat): Option<int>
    requires p.Valid()
  {
    Capped(ForwardFrom(p, 0, Net(p, w)), p.ry)
  }

  // ---- Forward never beats the mid price ----

  /** A whole rung costs at least its output at the mid price. */
  lemma RungAtMid(p: Book, i: nat)
    requires p.Valid() && i < |p.ladder| && p.Priced(i)
    ensures p.Unit() * p.ladder[i].y <= p.field0 * Threshold(p, i)
  {
    hide CeilDiv;
    DiscountFacts(p, i);
    var y := p.ladder[i].y;
    var ab := Discount(p, p.ladder[i].x) + Discount(p, p.XNext(i));
    MulMonotone(y, ab, 2 * MILLION);
    FloorAtLeast(MILLION * 2 * y, ab, y);
    var worth := RungWorth(p, i);
    MulMonotone(p.Unit(), y, worth);
    CeilAtMost(worth * p.Unit(), p.field0, Threshold(p, i));
  }

  lemma AtMidFacts(p: Book, xp: nat)
    requires p.Valid()
    ensures p.Unit() * AtMid(p, xp) <= p.field0 * xp
  {
    DivFacts(p.field0 * xp, p.Unit());
  }

  lemma PartialAtMid(p: Book, i: nat, xp: nat)
    requires p.Valid() && i < |p.ladder| && p.Priced(i)
    ensures PartialFill(p, i, xp) <= AtMid(p, xp)
  {
    DiscountFacts(p, i);
    var y, r := p.ladder[i].y, AtMid(p, xp);
    var a, b := Discount(p, p.ladder[i].x), Discount(p, p.XNext(i));
    MulMonotone(2 * y, a, MILLION);
    FillAtMost(r, 2 * y * a, MILLION * 2 * y, a - b);
  }

  lemma FloorSign(a: int, b: nat)
    requires b >= 1
    ensures a <= 0 ==> a / b <= 0
    ensures a >= 0 ==> a / b >= 0
  {
  }

  lemma TailAtMid(p: Book, xp: nat)
    requires p.Valid()
    ensures p.Unit() * ForwardTail(p, xp) <= p.field0 * xp
  {
    var v := p.field0 * xp;
    var b := Discount(p, p.XNext(|p.ladder| - 1));
    var t := ForwardTail(p, xp);
    TailBounded(p);
    if b >= 0 {
      DivFacts(v * b, p.Unit() * MILLION);
      MulMonotone(v, b, MILLION);
      assert (p.Unit() * MILLION) * t == MILLION * (p.Unit() * t);
      Cancel(MILLION, p.Unit() * t, v);
    } else {
      MulMonotone(v, b, 0);
      FloorSign(v * b, p.Unit() * MILLION);
      MulMonotone(p.Unit(), t, 0);
    }
  }

  lemma TailBounded(p: Book)
    requires p.Valid()
    ensures Discount(p, p.XNext(|p.ladder| - 1)) <= MILLION
  {
    assert p.ladder[|p.ladder| - 1].x <= p.XNext(|p.ladder| - 1);
  }

  /** Input xp never buys more than it is worth at the mid price. */
  lemma {:induction false} ForwardAtMid(p: Book, i: nat, xp: nat)
    requires p.Valid() && i <= |p.ladder| && ForwardFrom(p, i, xp).Some?
    ensures p.Unit() * ForwardFrom(p, i, xp).value <= p.field0 * xp
    decreases |p.ladder| - i
  {
    hide ForwardTail, PartialFill, Threshold, RungWorth, AtMid;
    if i == |p.ladder| {
      TailAtMid(p, xp);
    } else if xp >= Threshold(p, i) {
      var rest := xp - Threshold(p, i);
      ForwardAtMid(p, i + 1, rest);
      RungAtMid(p, i);
      Distribute(p.Unit(), p.ladder[i].y, ForwardFrom(p, i + 1, rest).value);
      Distribute(p.field0, Threshold(p, i), rest);
    } else {
      PartialAtMid(p, i, xp);
      AtMidFacts(p, xp);
      MulMonotone(p.Unit(), PartialFill(p, i, xp), AtMid(p, xp));
    }
  }

  lemma Distribute(c: nat, a: int, b: int)
    ensures c * (a + b) == c * a + c * b
  {
  }

  // ---- Forward is monotone ----

  /** Below the threshold the partial fill is never more than the whole rung. */
  lemma PartialAtMostRung(p: Book, i: nat, xp: nat)
    requires p.Valid() && i < |p.ladder| && p.Priced(i) && xp < Threshold(p, i)
    ensures PartialFill(p, i, xp) <= p.ladder[i].y
  {
    DiscountFacts(p, i);
    var y, r := p.ladder[i].y, AtMid(p, xp);
    var a, b := Discount(p, p.ladder[i].x), Discount(p, p.XNext(i));
    var worth := RungWorth(p, i);
    BelowThreshold(p, i, xp);
    DivFacts(MILLION * 2 * y, a + b);
    MulMonotone(a + b, r, worth);
    WholeFill(y, r, a, b);
  }

  lemma BelowThreshold(p: Book, i: nat, xp: nat)
    requires p.Valid() && i < |p.ladder| && p.Priced(i) && xp < Threshold(p, i)
    ensures AtMid(p, xp) <= RungWorth(p, i)
  {
    hide CeilDiv;
    var worth := RungWorth(p, i);
    CeilAtMost(worth * p.Unit(), p.field0, xp);
    FloorAtMost(p.field0 * xp, p.Unit(), worth);
  }

  lemma WholeFill(y: nat, r: nat, a: nat, b: int)
    requires y >= 1 && b <= a && (a + b) * r <= MILLION * 2 * y
    ensures Fill(r, 2 * y * a, MILLION * 2 * y, a - b) <= y
  {
    var c := MILLION * 2 * y;
    assert (a + b) * r == r * a + r * b;
    assert r * (a - b) == r * a - r * b;
    MulMonotone(y, 2 * (r * a), c + r * (a - b));
    assert r * (2 * y * a) == y * (2 * (r * a));
    FloorAtMost(r * (2 * y * a), c + r * (a - b), y);
  }

  lemma AtMidMonotone(p: Book, v: nat, w: nat)
    requires p.Valid() && v <= w
    ensures AtMid(p, v) <= AtMid(p, w)
  {
    MulMonotone(p.field0, v, w);
    DivFacts(p.field0 * v, p.Unit());
    FloorAtLeast(p.field0 * w, p.Unit(), AtMid(p, v));
  }

  lemma PartialMonotone(p: Book, i: nat, v: nat, w: nat)
    requires p.Valid() && i < |p.ladder| && p.Priced(i) && v <= w
    ensures PartialFill(p, i, v) <= PartialFill(p, i, w)
  {
    hide AtMid;
    DiscountFacts(p, i);
    AtMidMonotone(p, v, w);
    var y := p.ladder[i].y;
    var a, b := Discount(p, p.ladder[i].x), Discount(p, p.XNext(i));
    FillMonotone(AtMid(p, v), AtMid(p, w), 2 * y * a, MILLION * 2 * y, a - b);
  }

  lemma TailMonotone(p: Book, v: nat, w: nat)
    requires p.Valid() && p.TailPriced() && v <= w
    ensures ForwardTail(p, v) <= ForwardTail(p, w)
  {
    var b: nat := Discount(p, p.XNext(|p.ladder| - 1));
    MulMonotone(p.field0, v, w);
    MulMonotone(b, p.field0 * v, p.field0 * w);
    DivFacts(p.field0 * v * b, p.Unit() * MILLION);
    TailNonNegative(p, v);
    FloorAtLeast(p.field0 * w * b, p.Unit() * MILLION, ForwardTail(p, v));
  }

  predicate AllPriced(p: Book, i: nat, k: nat) {
    forall j :: i <= j < k && j < |p.ladder| ==> p.Priced(j)
  }

  /** Paying the thresholds of the first k rungs buys exactly those rungs. */
  lemma {:induction false} WholeRungs(p: Book, i: nat, k: nat, rest: nat)
    requires p.Valid() && i <= k <= |p.ladder| && AllPriced(p, i, k)
    ensures ForwardFrom(p, i, Thresholds(p, i, k) + rest) == Plus(Heights(p, i, k), ForwardFrom(p, k, rest))
    decreases k - i
  {
    hide ForwardTail, PartialFill, Threshold, Book.Valid;
    if i < k {
      WholeRungs(p, i + 1, k, rest);
    }
  }

  function Thresholds(p: Book, i: nat, k: nat): nat
    requires p.Valid() && i <= k <= |p.ladder| && AllPriced(p, i, k)
    decreases k - i
  {
    if i == k then 0 else Threshold(p, i) + Thresholds(p, i + 1, k)
  }

  /** The input pays for all rungs from i on, so that the extrapolation beyond them is reached. */
  predicate PastLadder(p: Book, i: nat, xp: nat)
    requires p.Valid() && i <= |p.ladder|
  {
    AllPriced(p, i, |p.ladder|) && xp >= Thresholds(p, i, |p.ladder|)
  }

  lemma TailNonNegative(p: Book, xp: nat)
    requires p.Valid() && p.TailPriced()
    ensures ForwardTail(p, xp) >= 0
  {
    var b: nat := Discount(p, p.XNext(|p.ladder| - 1));
    MulMonotone(p.field0 * xp, 0, b);
    FloorSign(p.field0 * xp * b, p.Unit() * MILLION);
  }

  lemma {:induction false} ForwardNonNegative(p: Book, i: nat, xp: nat)
    requires p.Valid() && i <= |p.ladder| && ForwardFrom(p, i, xp).Some?
    requires p.TailPriced() || !PastLadder(p, i, xp)
    ensures ForwardFrom(p, i, xp).value >= 0
    decreases |p.ladder| - i
  {
    hide ForwardTail, PartialFill, Threshold, RungWorth;
    if i == |p.ladder| {
      TailNonNegative(p, xp);
    } else if xp >= Threshold(p, i) {
      ForwardNonNegative(p, i + 1, xp - Threshold(p, i));
    }
  }

  /** Less input has a quote if more has. */
  lemma {:induction false} SmallerQuoted(p: Book, i: nat, v: nat, w: nat)
    requires p.Valid() && i <= |p.ladder| && v <= w && ForwardFrom(p, i, w).Some?
    ensures ForwardFrom(p, i, v).Some?
    decreases |p.ladder| - i
  {
    hide ForwardTail, PartialFill, Threshold, RungWorth;
    if i < |p.ladder| && v >= Threshold(p, i) {
      SmallerQuoted(p, i + 1, v - Threshold(p, i), w - Threshold(p, i));
    }
  }

  /** More input never buys less, across all rungs and, unless its price is negative, the tail. */
  lemma {:induction false} ForwardFromMonotone(p: Book, i: nat, v: nat, w: nat)
    requires p.Valid() && i <= |p.ladder| && v <= w && ForwardFrom(p, i, w).Some?
    requires p.TailPriced() || !PastLadder(p, i, w)
    ensures ForwardFrom(p, i, v).Some? && ForwardFrom(p, i, v).value <= ForwardFrom(p, i, w).value
    decreases |p.ladder| - i
  {
    hide ForwardTail, PartialFill, Threshold, RungWorth;
    if i == |p.ladder| {
      TailMonotone(p, v, w);
    } else if v >= Threshold(p, i) {
      ForwardFromMonotone(p, i + 1, v - Threshold(p, i), w - Threshold(p, i));
    } else if w >= Threshold(p, i) {
      PartialAtMostRung(p, i, v);
      ForwardNonNegative(p, i + 1, w - Threshold(p, i));
    } else {
      PartialMonotone(p, i, v, w);
    }
  }

  /** The forward quote is non-decreasing in the input and never exceeds the reserve. */
  lemma ForwardMonotone(p: Book, v: nat, w: nat)
    requires p.Valid() && v <= w && Forward(p, w).Some?
    ensures Forward(p, v).Some? && Forward(p, v).value <= p.ry
    ensures p.TailPriced() || !PastLadder(p, 0, Net(p, w)) ==> Forward(p, v).value <= Forward(p, w).value
  {
    hide ForwardFrom, Net, Thresholds;
    NetMonotone(p, v, w);
    SmallerQuoted(p, 0, Net(p, v), Net(p, w));
    if p.TailPriced() || !PastLadder(p, 0, Net(p, w)) {
      ForwardFromMonotone(p, 0, Net(p, v), Net(p, w));
    }
  }

  /** A priced rung costs something. */
  lemma ThresholdPositive(p: Book, i: nat)
    requires p.Valid() && i < |p.ladder| && p.Priced(i)
    ensures Threshold(p, i) >= 1
  {
    hide Threshold;
    RungAtMid(p, i);
    MulMonotone(p.Unit(), 1, p.ladder[i].y);
  }

  lemma ForwardOfNothing(p: Book)
    requires p.Valid() && p.Priced(0)
    ensures Forward(p, 0) == Some(0)
  {
    hide Threshold, RungWorth;
    ThresholdPositive(p, 0);
    assert Net(p, 0) == 0;
    assert AtMid(p, 0) == 0;
    DiscountFacts(p, 0);
    FloorAtMost(0, MILLION * 2 * p.ladder[0].y, 0);
  }

  /** Below a full fee there is an input with any net amount or more. */
  lemma NetReaches(p: Book, x: nat)
    requires p.fee < MILLION
    ensures Net(p, x * MILLION) >= x
  {
    assert x * MILLION * p.fee == MILLION * (x * p.fee);
    FloorAtMost(x * MILLION * p.fee, MILLION, x * p.fee);
    assert x * (MILLION - p.fee) == x * MILLION - x * p.fee;
    MulMonotone(x, 1, MILLION - p.fee);
  }

  lemma NegativeTail(p: Book, h: int, rest: nat)
    requires p.Valid() && h >= 0 && !p.TailPriced() && rest >= (h + 1) * (p.Unit() * MILLION)
    ensures ForwardTail(p, rest) < -h
  {
    var d := p.Unit() * MILLION;
    var b := Discount(p, p.XNext(|p.ladder| - 1));
    var v := p.field0 * rest;
    MulMonotone(rest, 1, p.field0);
    MulMonotone(v, b, -1);
    BelowMultiple(v * b, d, h + 1);
  }

  lemma BelowMultiple(a: int, d: nat, k: int)
    requires d >= 1 && a <= -(k * d)
    ensures a / d <= -k
  {
    var q := a / d;
    assert d * q <= a;
    assert d * (1 - k) == d - k * d;
    if q > -k {
      MulMonotone(d, 1 - k, q);
    }
  }

  /**
   The forward quote is non-decreasing on all inputs exactly if its extrapolation has no negative
   price, or is never reached: behind a rung without a price, or at a full fee.
   */
  lemma MonotoneExactly(p: Book)
    requires p.Valid()
    ensures
      (forall v: nat, w: nat :: v <= w && Forward(p, w).Some? ==>
         Forward(p, v).Some? && Forward(p, v).value <= Forward(p, w).value)
      <==> p.TailPriced() || !AllPriced(p, 0, |p.ladder|) || p.fee == MILLION
  {
    hide Forward, ForwardTail, Thresholds, Net, Heights;
    var n := |p.ladder|;
    if p.TailPriced() || !AllPriced(p, 0, n) || p.fee == MILLION {
      forall v: nat, w: nat | v <= w && Forward(p, w).Some?
        ensures Forward(p, v).Some? && Forward(p, v).value <= Forward(p, w).value
      {
        NeverPast(p, w);
        ForwardMonotone(p, v, w);
      }
    } else {
      var rest := (Heights(p, 0, n) + 1) * (p.Unit() * MILLION);
      var w := (Thresholds(p, 0, n) + rest) * MILLION;
      NegativeQuote(p, w);
      ForwardOfNothing(p);
      assert Forward(p, 0).value > Forward(p, w).value;
    }
  }

  lemma NeverPast(p: Book, w: nat)
    requires p.Valid() && (p.TailPriced() || !AllPriced(p, 0, |p.ladder|) || p.fee == MILLION)
    ensures p.TailPriced() || !PastLadder(p, 0, Net(p, w))
  {
    hide Threshold;
    if p.fee == MILLION && AllPriced(p, 0, |p.ladder|) {
      ThresholdPositive(p, 0);
      assert Net(p, w) == 0;
    }
  }

  lemma NegativeQuote(p: Book, w: nat)
    requires p.Valid() && !p.TailPriced() && AllPriced(p, 0, |p.ladder|) && p.fee < MILLION
    requires var n := |p.ladder|;
             w == (Thresholds(p, 0, n) + (Heights(p, 0, n) + 1) * (p.Unit() * MILLION)) * MILLION
    ensures Forward(p, w).Some? && Forward(p, w).value < 0
  {
    hide ForwardTail, Thresholds, Net, Heights;
    var n := |p.ladder|;
    var t, h := Thresholds(p, 0, n), Heights(p, 0, n);
    NetReaches(p, t + (h + 1) * (p.Unit() * MILLION));
    var rest := Net(p, w) - t;
    NegativeTail(p, h, rest);
    WholeRungs(p, 0, n, rest);
  }

  /** Rung k is the first without a price. */
  predicate FirstUnpriced(p: Book, k: nat) {
    k < |p.ladder| && AllPriced(p, 0, k) && !p.Priced(k)
  }

  /** There is no quote exactly when the input pays for every rung before the first one without a price. */
  lemma NoQuoteExactly(p: Book, w: nat)
    requires p.Valid()
    ensures Forward(p, w).None? <==> exists k: nat :: FirstUnpriced(p, k) && Net(p, w) >= Thresholds(p, 0, k)
  {
    hide Thresholds, Net;
    var xp := Net(p, w);
    if k: nat :| FirstUnpriced(p, k) && xp >= Thresholds(p, 0, k) {
      WholeRungs(p, 0, k, xp - Thresholds(p, 0, k));
    }
    if ForwardFrom(p, 0, xp).None? {
      var k := Unquoted(p, 0, xp);
    }
  }

  lemma {:induction false} Unquoted(p: Book, i: nat, xp: nat) returns (k: nat)
    requires p.Valid() && i <= |p.ladder| && AllPriced(p, 0, i) && ForwardFrom(p, i, xp).None?
    ensures i <= k && FirstUnpriced(p, k) && xp >= Thresholds(p, i, k)
    decreases |p.ladder| - i
  {
    hide ForwardTail, PartialFill, Threshold;
    if i < |p.ladder| && p.Priced(i) {
      k := Unquoted(p, i + 1, xp - Threshold(p, i));
    } else {
      k := i;
    }
  }

  function Heights(p: Book, i: nat, k: nat): nat
    requires i <= k <= |p.ladder|
    decreases k - i
  {
    if i == k then 0 else p.ladder[i].y + Heights(p, i + 1, k)
  }

  // ---- Reverse ----

  /** The mark-up factor (over a million) at x. */
  function Markup(p: Book, x: int): int {
    MILLION + (x + p.field1)
  }

  lemma MarkupFacts(p: Book, i: nat)
    requires p.Valid() && i < |p.ladder|
    ensures MILLION <= Markup(p, p.ladder[i].x) <= Markup(p, p.XNext(i))
  {
  }

  lemma Share(d: nat, offset: nat, y: nat)
    requires offset < y
    ensures d * offset / y <= d
  {
    MulMonotone(d, offset, y);
    FloorAtMost(d * offset, y, d);
  }

  /** The mark-up where the position stands inside rung i. */
  function MarkupAt(p: Book, i: nat, offset: nat): (a: int)
    requires p.Valid() && i < |p.ladder| && offset < p.ladder[i].y
    ensures MILLION <= a <= Markup(p, p.XNext(i))
  {
    MarkupFacts(p, i);
    var rise: nat := Markup(p, p.XNext(i)) - Markup(p, p.ladder[i].x);
    Share(rise, offset, p.ladder[i].y);
    Markup(p, p.ladder[i].x) + rise * offset / p.ladder[i].y
  }

  function FillGain(unit: nat, rest: nat): nat {
    MILLION * unit * 2 * rest
  }

  function FillBase(f: nat, rest: nat, a: nat): (r: nat)
    requires f >= 1 && rest >= 1 && a >= MILLION
    ensures r >= 1
  {
    MulMonotone(2 * rest, 1, a);
    MulMonotone(f, 1, 2 * rest * a);
    f * (2 * rest * a)
  }

  function FillSlope(f: nat, d: nat): nat {
    f * d
  }

  /** What an input of at most the rest of the rung gives. */
  function ReverseFill(p: Book, i: nat, offset: nat, w: nat): nat
    requires p.Valid() && i < |p.ladder| && offset < p.ladder[i].y
  {
    var rest := p.ladder[i].y - offset;
    var a := MarkupAt(p, i, offset);
    Fill(w, FillGain(p.Unit(), rest), FillBase(p.field0, rest, a), FillSlope(p.field0, Markup(p, p.XNext(i)) - a))
  }

  /** Written as one fraction: w 10^6 unit 2R over field0 (2R a + w d). */
  lemma ReverseFillFraction(p: Book, i: nat, offset: nat, w: nat)
    requires p.Valid() && i < |p.ladder| && offset < p.ladder[i].y
    ensures
      var rest := p.ladder[i].y - offset;
      var a := MarkupAt(p, i, offset);
      var d := Markup(p, p.XNext(i)) - a;
      && p.field0 * (2 * rest * a + w * d) >= 1
      && ReverseFill(p, i, offset, w) == (w * (MILLION * p.Unit() * 2 * rest)) / (p.field0 * (2 * rest * a + w * d))
  {
    hide MarkupAt;
    var rest := p.ladder[i].y - offset;
    var a := MarkupAt(p, i, offset);
    var d: nat := Markup(p, p.XNext(i)) - a;
    Denominator(p.field0, rest, a, w, d);
  }

  lemma Denominator(f: nat, rest: nat, a: nat, w: nat, d: nat)
    requires f >= 1 && rest >= 1 && a >= MILLION
    ensures f * (2 * rest * a + w * d) == FillBase(f, rest, a) + w * FillSlope(f, d)
  {
    Distribute(f, 2 * rest * a, w * d);
    assert f * (w * d) == w * (f * d);
  }

  function ReverseTail(p: Book, xp: nat): nat
    requires p.Valid()
  {
    var a := Markup(p, p.XNext(|p.ladder| - 1));
    MarkupFacts(p, |p.ladder| - 1);
    MulMonotone(p.field0, 1, a);
    (xp * MILLION * p.Unit()) / (p.field0 * a)
  }

  /** What input xp gives from rung i on, the position being behind. */
  function ReverseFrom(p: Book, i: nat, xp: nat): nat
    requires p.Valid() && i <= |p.ladder|
    decreases |p.ladder| - i
  {
    if i == |p.ladder| then ReverseTail(p, xp)
    else
      var w := Min(xp, p.ladder[i].y);
      ReverseFill(p, i, 0, w) + ReverseFrom(p, i + 1, xp - w)
  }

  /** The same while the position still has to be reached; `cum` is the height of the rungs passed. */
  function ReverseAhead(p: Book, i: nat, cum: nat, xp: nat): nat
    requires p.Valid() && i <= |p.ladder| && cum <= p.Position()
    decreases |p.ladder| - i
  {
    if i == |p.ladder| then ReverseTail(p, xp)
    else if p.Position() >= cum + p.ladder[i].y then ReverseAhead(p, i + 1, cum + p.ladder[i].y, xp)
    else
      var offset := p.Position() - cum;
      var w := Min(xp, p.ladder[i].y - offset);
      ReverseFill(p, i, offset, w) + ReverseFrom(p, i + 1, xp - w)
  }

  function Reverse(p: Book, w: nat): nat
    requires p.Valid()
  {
    Min(ReverseAhead(p, 0, 0, Net(p, w)), p.rx)
  }

  lemma ReverseNothing(p: Book, i: nat, offset: nat)
    requires p.Valid() && i < |p.ladder| && offset < p.ladder[i].y
    ensures ReverseFill(p, i, offset, 0) == 0
  {
    hide MarkupAt, FillGain, FillBase, FillSlope;
    var rest := p.ladder[i].y - offset;
    FloorAtMost(0, FillBase(p.field0, rest, MarkupAt(p, i, offset)), 0);
  }

  /** With nothing left, the remaining rungs and the tail give nothing: breaking early loses nothing. */
  lemma {:induction false} EarlyBreak(p: Book, i: nat)
    requires p.Valid() && i <= |p.ladder|
    ensures ReverseFrom(p, i, 0) == 0
    decreases |p.ladder| - i
  {
    hide ReverseFill;
    if i == |p.ladder| {
      MarkupFacts(p, |p.ladder| - 1);
      MulMonotone(p.field0, 1, Markup(p, p.XNext(|p.ladder| - 1)));
    } else {
      ReverseNothing(p, i, 0);
      EarlyBreak(p, i + 1);
    }
  }

  // ---- Reverse: position, conservation, mid price, monotonicity ----

  /** Rungs behind the position are skipped without touching the input. */
  lemma {:induction false} SkippedPrefix(p: Book, k: nat, xp: nat)
    requires p.Valid() && k <= |p.ladder| && Heights(p, 0, k) <= if p.posIsCurrent then p.pos else 0
    ensures ReverseAhead(p, 0, 0, xp) == ReverseAhead(p, k, Heights(p, 0, k), xp)
    decreases k
  {
    hide ReverseFill, ReverseTail;
    if k > 0 {
      HeightsExtend(p, 0, k - 1);
      SkippedPrefix(p, k - 1, xp);
    }
  }

  lemma {:induction false} HeightsExtend(p: Book, i: nat, k: nat)
    requires i <= k < |p.ladder|
    ensures Heights(p, i, k + 1) == Heights(p, i, k) + p.ladder[k].y
    decreases k - i
  {
    if i < k {
      HeightsExtend(p, i + 1, k);
    }
  }

  /** How much of rung i, `cum` rungs below it, lies behind the position. */
  function Behind(p: Book, i: nat, cum: nat): (offset: nat)
    requires i < |p.ladder|
    ensures offset <= p.ladder[i].y
  {
    if p.Position() >= cum + p.ladder[i].y then p.ladder[i].y
    else if p.Position() >= cum then p.Position() - cum
    else 0
  }

  /** The input rung i takes. */
  function Taken(p: Book, i: nat, cum: nat, xp: nat): nat
    requires i < |p.ladder|
  {
    Min(xp, p.ladder[i].y - Behind(p, i, cum))
  }

  /** The input that reaches the tail. */
  function LeftOver(p: Book, i: nat, cum: nat, xp: nat): nat
    requires i <= |p.ladder|
    decreases |p.ladder| - i
  {
    if i == |p.ladder| then xp else LeftOver(p, i + 1, cum + p.ladder[i].y, xp - Taken(p, i, cum, xp))
  }

  /** What the rungs give, each for what it takes. */
  function RungsGive(p: Book, i: nat, cum: nat, xp: nat): nat
    requires p.Valid() && i <= |p.ladder|
    decreases |p.ladder| - i
  {
    if i == |p.ladder| then 0
    else
      var rest := RungsGive(p, i + 1, cum + p.ladder[i].y, xp - Taken(p, i, cum, xp));
      if Behind(p, i, cum) == p.ladder[i].y then rest
      else ReverseFill(p, i, Behind(p, i, cum), Taken(p, i, cum, xp)) + rest
  }

  /** Past the position, the quote is what the rungs give plus the tail for the left-over input. */
  lemma {:induction false} FromSplits(p: Book, i: nat, cum: nat, xp: nat)
    requires p.Valid() && i <= |p.ladder| && p.Position() <= cum
    ensures ReverseFrom(p, i, xp) == RungsGive(p, i, cum, xp) + ReverseTail(p, LeftOver(p, i, cum, xp))
    decreases |p.ladder| - i
  {
    hide ReverseFill, ReverseTail;
    if i < |p.ladder| {
      FromSplits(p, i + 1, cum + p.ladder[i].y, xp - Taken(p, i, cum, xp));
    }
  }

  /** The quote splits into the rungs' part and the tail of the left-over input, from any position. */
  lemma {:induction false} QuoteSplits(p: Book, i: nat, cum: nat, xp: nat)
    requires p.Valid() && i <= |p.ladder| && cum <= p.Position()
    ensures ReverseAhead(p, i, cum, xp) == RungsGive(p, i, cum, xp) + ReverseTail(p, LeftOver(p, i, cum, xp))
    decreases |p.ladder| - i
  {
    hide ReverseFill, ReverseTail;
    if i < |p.ladder| {
      var y := p.ladder[i].y;
      if p.Position() >= cum + y {
        QuoteSplits(p, i + 1, cum + y, xp);
      } else {
        FromSplits(p, i + 1, cum + y, xp - Taken(p, i, cum, xp));
      }
    }
  }

  /** Consumption is conserved: the rungs take exactly what lies between the position and the ladder's top. */
  lemma {:induction false} LeftOverClosed(p: Book, i: nat, cum: nat, xp: nat)
    requires i <= |p.ladder|
    ensures
      var top := cum + Heights(p, i, |p.ladder|);
      var from := if p.posIsCurrent && p.pos > cum then p.pos else cum;
      var room := if top > from then top - from else 0;
      LeftOver(p, i, cum, xp) == xp - Min(xp, room)
    decreases |p.ladder| - i
  {
    if i < |p.ladder| {
      LeftOverClosed(p, i + 1, cum + p.ladder[i].y, xp - Taken(p, i, cum, xp));
    }
  }

  lemma ReverseFillAtMid(p: Book, i: nat, offset: nat, w: nat)
    requires p.Valid() && i < |p.ladder| && offset < p.ladder[i].y
    ensures p.field0 * ReverseFill(p, i, offset, w) <= p.Unit() * w
  {
    hide MarkupAt, FillGain, FillBase, FillSlope;
    var rest := p.ladder[i].y - offset;
    var a := MarkupAt(p, i, offset);
    FillAtMid(p.field0, p.Unit(), rest, a, FillSlope(p.field0, Markup(p, p.XNext(i)) - a), w);
  }

  /** Dropping the slope only makes a fill larger. */
  lemma FillDrop(r: nat, e: nat, c: nat, d: nat)
    requires c >= 1
    ensures c * Fill(r, e, c, d) <= r * e
  {
    var q := Fill(r, e, c, d);
    DivFacts(r * e, c + r * d);
    SumTimes(c, r * d, q);
  }

  lemma FillAtMid(f: nat, unit: nat, rest: nat, a: nat, slope: nat, w: nat)
    requires f >= 1 && rest >= 1 && a >= MILLION
    ensures f * Fill(w, FillGain(unit, rest), FillBase(f, rest, a), slope) <= unit * w
  {
    hide Fill;
    var q := Fill(w, FillGain(unit, rest), FillBase(f, rest, a), slope);
    FillDrop(w, FillGain(unit, rest), FillBase(f, rest, a), slope);
    FillTerms(f, unit, rest, a, w, q);
    Cancel(2 * rest, (f * q) * a, MILLION * (unit * w));
    MulMonotone(f * q, MILLION, a);
    Cancel(MILLION, f * q, unit * w);
  }

  lemma FillTerms(f: nat, unit: nat, rest: nat, a: nat, w: nat, q: nat)
    requires f >= 1 && rest >= 1 && a >= MILLION
    ensures FillBase(f, rest, a) * q == 2 * rest * ((f * q) * a)
    ensures w * FillGain(unit, rest) == 2 * rest * (MILLION * (unit * w))
  {
    assert f * (2 * rest * a) * q == 2 * rest * ((f * q) * a);
    assert w * (MILLION * unit * 2 * rest) == 2 * rest * (MILLION * (unit * w));
  }

  lemma ReverseTailAtMid(p: Book, xp: nat)
    requires p.Valid()
    ensures p.field0 * ReverseTail(p, xp) <= p.Unit() * xp
  {
    var a := Markup(p, p.XNext(|p.ladder| - 1));
    MarkupFacts(p, |p.ladder| - 1);
    MulMonotone(p.field0, 1, a);
    var t := ReverseTail(p, xp);
    DivFacts(xp * MILLION * p.Unit(), p.field0 * a);
    MulMonotone(p.field0 * t, MILLION, a);
    assert p.field0 * a * t == p.field0 * t * a;
    assert xp * MILLION * p.Unit() == MILLION * (p.Unit() * xp);
    Cancel(MILLION, p.field0 * t, p.Unit() * xp);
  }

  lemma {:induction false} ReverseFromAtMid(p: Book, i: nat, xp: nat)
    requires p.Valid() && i <= |p.ladder|
    ensures p.field0 * ReverseFrom(p, i, xp) <= p.Unit() * xp
    decreases |p.ladder| - i
  {
    hide ReverseFill, ReverseTail;
    if i == |p.ladder| {
      ReverseTailAtMid(p, xp);
    } else {
      var w := Min(xp, p.ladder[i].y);
      ReverseFillAtMid(p, i, 0, w);
      ReverseFromAtMid(p, i + 1, xp - w);
      Distribute(p.field0, ReverseFill(p, i, 0, w), ReverseFrom(p, i + 1, xp - w));
      Distribute(p.Unit(), w, xp - w);
    }
  }

  /** Input xp never gives more than it is worth at the mid price, from any position. */
  lemma {:induction false} ReverseAtMid(p: Book, i: nat, cum: nat, xp: nat)
    requires p.Valid() && i <= |p.ladder| && cum <= p.Position()
    ensures p.field0 * ReverseAhead(p, i, cum, xp) <= p.Unit() * xp
    decreases |p.ladder| - i
  {
    hide ReverseFill, ReverseTail;
    if i == |p.ladder| {
      ReverseTailAtMid(p, xp);
    } else if p.Position() >= cum + p.ladder[i].y {
      ReverseAtMid(p, i + 1, cum + p.ladder[i].y, xp);
    } else {
      var offset := p.Position() - cum;
      var w := Min(xp, p.ladder[i].y - offset);
      ReverseFillAtMid(p, i, offset, w);
      ReverseFromAtMid(p, i + 1, xp - w);
      Distribute(p.field0, ReverseFill(p, i, offset, w), ReverseFrom(p, i + 1, xp - w));
      Distribute(p.Unit(), w, xp - w);
    }
  }

  lemma ReverseFillMonotone(p: Book, i: nat, offset: nat, v: nat, w: nat)
    requires p.Valid() && i < |p.ladder| && offset < p.ladder[i].y && v <= w
    ensures ReverseFill(p, i, offset, v) <= ReverseFill(p, i, offset, w)
  {
    hide Fill, MarkupAt, FillGain, FillBase, FillSlope;
    var rest := p.ladder[i].y - offset;
    var a := MarkupAt(p, i, offset);
    var slope := FillSlope(p.field0, Markup(p, p.XNext(i)) - a);
    FillMonotone(v, w, FillGain(p.Unit(), rest), FillBase(p.field0, rest, a), slope);
  }

  lemma ReverseTailMonotone(p: Book, v: nat, w: nat)
    requires p.Valid() && v <= w
    ensures ReverseTail(p, v) <= ReverseTail(p, w)
  {
    var a := Markup(p, p.XNext(|p.ladder| - 1));
    MarkupFacts(p, |p.ladder| - 1);
    MulMonotone(p.field0, 1, a);
    MulMonotone(MILLION * p.Unit(), v, w);
    assert v * MILLION * p.Unit() == MILLION * p.Unit() * v;
    assert w * MILLION * p.Unit() == MILLION * p.Unit() * w;
    DivFacts(v * MILLION * p.Unit(), p.field0 * a);
    FloorAtLeast(w * MILLION * p.Unit(), p.field0 * a, ReverseTail(p, v));
  }

  lemma {:induction false} ReverseFromMonotone(p: Book, i: nat, v: nat, w: nat)
    requires p.Valid() && i <= |p.ladder| && v <= w
    ensures ReverseFrom(p, i, v) <= ReverseFrom(p, i, w)
    decreases |p.ladder| - i
  {
    hide ReverseFill, ReverseTail;
    if i == |p.ladder| {
      ReverseTailMonotone(p, v, w);
    } else {
      var y := p.ladder[i].y;
      ReverseFillMonotone(p, i, 0, Min(v, y), Min(w, y));
      ReverseFromMonotone(p, i + 1, v - Min(v, y), w - Min(w, y));
    }
  }

  lemma {:induction false} ReverseAheadMonotone(p: Book, i: nat, cum: nat, v: nat, w: nat)
    requires p.Valid() && i <= |p.ladder| && cum <= p.Position() && v <= w
    ensures ReverseAhead(p, i, cum, v) <= ReverseAhead(p, i, cum, w)
    decreases |p.ladder| - i
  {
    hide ReverseFill, ReverseTail;
    if i == |p.ladder| {
      ReverseTailMonotone(p, v, w);
    } else if p.Position() >= cum + p.ladder[i].y {
      ReverseAheadMonotone(p, i + 1, cum + p.ladder[i].y, v, w);
    } else {
      var offset := p.Position() - cum;
      var r := p.ladder[i].y - offset;
      ReverseFillMonotone(p, i, offset, Min(v, r), Min(w, r));
      ReverseFromMonotone(p, i + 1, v - Min(v, r), w - Min(w, r));
    }
  }

  /** The reverse quote is non-decreasing in the input and never exceeds the reserve. */
  lemma ReverseMonotone(p: Book, v: nat, w: nat)
    requires p.Valid() && v <= w
    ensures Reverse(p, v) <= Reverse(p, w) <= p.rx
  {
    hide ReverseAhead, Net;
    NetMonotone(p, v, w);
    ReverseAheadMonotone(p, 0, 0, Net(p, v), Net(p, w));
  }

  // ---- The quotes in the fields of the book ----

  /** Where rung i ends, in the fields: where the next one begins, and the last one `win` further on. */
  function EndX(p: Book, i: nat): int
    requires i < |p.ladder|
  {
    if i == |p.ladder| - 1 then p.ladder[i].x + p.win else p.ladder[i + 1].x
  }

  /** The net input is the input less the fee, rounded up. */
  lemma NetExactly(p: Book, w: nat, n: nat)
    requires p.fee <= 1_000_000
    ensures Net(p, w) <= n <==> w * (1_000_000 - p.fee) <= n * 1_000_000
  {
    var k := w * p.fee / MILLION;
    DivFacts(w * p.fee, MILLION);
    assert w * (MILLION - p.fee) == w * MILLION - w * p.fee;
  }

  lemma FloorExactly(a: int, b: nat, k: int)
    requires b >= 1
    ensures k <= a / b <==> b * k <= a
  {
    var q := a / b;
    assert b * q <= a < b * q + b;
    assert b * (q + 1) == b * q + b;
    if k <= q {
      MulMonotone(b, k, q);
    } else {
      MulMonotone(b, q + 1, k);
    }
  }

  /** A whole rung is bought from the input on whose mid-price output is its height over the mean discount. */
  lemma ThresholdExactly(p: Book, i: nat, xp: nat) returns (worth: nat)
    requires p.Valid() && i < |p.ladder| && p.Priced(i)
    ensures var sum := 2_000_000 - p.ladder[i].x - EndX(p, i) - 2 * p.field1;
            sum * worth <= 2_000_000 * p.ladder[i].y < sum * (worth + 1)
    ensures xp >= Threshold(p, i) <==> p.field0 * xp >= worth * (BILLION * p.scale)
  {
    hide CeilDiv;
    DiscountFacts(p, i);
    worth := RungWorth(p, i);
    var sum := Discount(p, p.ladder[i].x) + Discount(p, p.XNext(i));
    DivFacts(MILLION * 2 * p.ladder[i].y, sum);
    assert sum * (worth + 1) == sum * worth + sum;
    CeilAtMost(worth * p.Unit(), p.field0, xp);
  }

  /**
   Below the threshold a partial fill pays for its output at mid between the rung's first discount and
   its mean one, rounded down.
   */
  lemma PartialBetween(p: Book, i: nat, xp: nat) returns (mid: nat)
    requires p.Valid() && i < |p.ladder| && p.Priced(i) && xp < Threshold(p, i)
    ensures mid * (BILLION * p.scale) <= p.field0 * xp < (mid + 1) * (BILLION * p.scale)
    ensures PartialFill(p, i, xp) * 1_000_000 <= mid * (1_000_000 - p.ladder[i].x - p.field1)
    ensures mid * (2_000_000 - p.ladder[i].x - EndX(p, i) - 2 * p.field1) < 2_000_000 * (PartialFill(p, i, xp) + 1)
  {
    hide Threshold;
    DiscountFacts(p, i);
    mid := AtMid(p, xp);
    var a, b, y := Discount(p, p.ladder[i].x), Discount(p, p.XNext(i)), p.ladder[i].y;
    DivFacts(p.field0 * xp, p.Unit());
    assert p.Unit() * mid + p.Unit() == (mid + 1) * p.Unit();
    BelowThreshold(p, i, xp);
    DivFacts(MILLION * 2 * y, a + b);
    MulMonotone(a + b, mid, RungWorth(p, i));
    hide AtMid, RungWorth;
    FillBelowFirst(y, mid, a, a - b);
    FillAboveMean(y, mid, a, b);
  }

  lemma FillBelowFirst(y: nat, r: nat, a: nat, d: nat)
    requires y >= 1
    ensures Fill(r, 2 * y * a, MILLION * 2 * y, d) * MILLION <= r * a
  {
    var q := Fill(r, 2 * y * a, MILLION * 2 * y, d);
    FillDrop(r, 2 * y * a, MILLION * 2 * y, d);
    assert MILLION * 2 * y * q == (2 * y) * (q * MILLION);
    assert r * (2 * y * a) == (2 * y) * (r * a);
    Cancel(2 * y, q * MILLION, r * a);
  }

  lemma FillAboveMean(y: nat, r: nat, a: nat, b: int)
    requires y >= 1 && b <= a && 0 < a + b && (a + b) * r <= MILLION * 2 * y
    ensures r * (a + b) < 2 * MILLION * (Fill(r, 2 * y * a, MILLION * 2 * y, a - b) + 1)
  {
    var c := MILLION * 2 * y;
    var e := 2 * y * a;
    var d := a - b;
    var q := Fill(r, e, c, d);
    var bottom := c + r * d;
    DivFacts(r * e, bottom);
    assert bottom * (q + 1) == bottom * q + bottom;
    MeanBound(c, r, a + b, d, a);
    assert c * r * (2 * a) == 2 * MILLION * (r * e);
    ManyUnits(bottom, q + 1, r * (a + b), r * e);
  }

  lemma ManyUnits(bottom: nat, units: nat, v: nat, top: nat)
    requires bottom * v <= 2 * MILLION * top
    ensures 2 * MILLION * units <= v ==> bottom * units <= top
  {
    if 2 * MILLION * units <= v {
      MulMonotone(bottom, 2 * MILLION * units, v);
      assert bottom * (2 * MILLION * units) == 2 * MILLION * (bottom * units);
      Cancel(2 * MILLION, bottom * units, top);
    }
  }

  lemma MeanBound(c: nat, r: nat, s: nat, d: nat, a: nat)
    requires s * r <= c && s + d == 2 * a
    ensures (c + r * d) * (r * s) <= c * r * (2 * a)
  {
    MulMonotone(r * d, s * r, c);
    assert (c + r * d) * (r * s) == c * r * s + (r * d) * (s * r);
    assert (r * d) * c == c * r * d;
    assert c * r * s + c * r * d == c * r * (s + d);
  }

  /** Beyond the ladder each input buys at the discount at the far end, `win` behind the last rung, rounded down. */
  lemma ForwardTailExactly(p: Book, xp: nat, t: int)
    requires p.Valid()
    ensures
      var far := p.ladder[|p.ladder| - 1].x + p.win;
      t <= ForwardTail(p, xp) <==> BILLION * p.scale * 1_000_000 * t <= p.field0 * xp * (1_000_000 - (far + p.field1))
  {
    FloorExactly(p.field0 * xp * Discount(p, p.XNext(|p.ladder| - 1)), p.Unit() * MILLION, t);
  }

  lemma ReverseTailExactly(p: Book, xp: nat, t: nat)
    requires p.Valid()
    ensures
      var far := p.ladder[|p.ladder| - 1].x + p.win;
      t <= ReverseTail(p, xp) <==> p.field0 * (1_000_000 + far + p.field1) * t <= xp * 1_000_000 * (BILLION * p.scale)
  {
    var a := Markup(p, p.XNext(|p.ladder| - 1));
    MarkupFacts(p, |p.ladder| - 1);
    MulMonotone(p.field0, 1, a);
    FloorExactly(xp * MILLION * p.Unit(), p.field0 * a, t);
  }

  /** The mark-up inside a rung lies on the straight line between those of its ends, rounded down. */
  lemma MarkupOnLine(p: Book, i: nat, offset: nat)
    requires p.Valid() && i < |p.ladder| && offset < p.ladder[i].y
    ensures
      var first := 1_000_000 + p.ladder[i].x + p.field1;
      var rise := EndX(p, i) - p.ladder[i].x;
      var y := p.ladder[i].y;
      y * (MarkupAt(p, i, offset) - first) <= rise * offset < y * (MarkupAt(p, i, offset) - first) + y
  {
    MarkupFacts(p, i);
    var rise: nat := Markup(p, p.XNext(i)) - Markup(p, p.ladder[i].x);
    DivFacts(rise * offset, p.ladder[i].y);
  }

  /** The whole forward quote: the rungs paid for, and part of the next or the extrapolation, up to the reserve. */
  lemma ForwardExactly(p: Book, w: nat, k: nat)
    requires p.Valid() && k <= |p.ladder| && AllPriced(p, 0, k) && Thresholds(p, 0, k) <= Net(p, w)
    ensures
      var rest := Net(p, w) - Thresholds(p, 0, k);
      && (k == |p.ladder| ==>
            Forward(p, w) == Some(MinInt(Heights(p, 0, k) + ForwardTail(p, rest), p.ry)))
      && (k < |p.ladder| && p.Priced(k) && rest < Threshold(p, k) ==>
            Forward(p, w) == Some(MinInt(Heights(p, 0, k) + PartialFill(p, k, rest), p.ry)))
  {
    hide Thresholds, Heights, Net, ForwardTail, PartialFill, Threshold;
    WholeRungs(p, 0, k, Net(p, w) - Thresholds(p, 0, k));
  }

  /** The whole reverse quote: what the rungs ahead of the position give, and the extrapolation, up to the reserve. */
  lemma ReverseExactly(p: Book, w: nat)
    requires p.Valid()
    ensures
      var xp := Net(p, w);
      var q := RungsGive(p, 0, 0, xp) + ReverseTail(p, LeftOver(p, 0, 0, xp));
      Reverse(p, w) == if q <= p.rx then q else p.rx
  {
    hide RungsGive, LeftOver, ReverseAhead, ReverseTail, Net;
    QuoteSplits(p, 0, 0, Net(p, w));
  }

  // ---- No profitable round trip ----

  /** A quote is worth at most its input at the mid price. */
  lemma QuotesAtMid(p: Book, w: nat)
    requires p.Valid()
    ensures Forward(p, w).Some? ==> BILLION * p.scale * Forward(p, w).value <= p.field0 * w
    ensures p.field0 * Reverse(p, w) <= BILLION * p.scale * w
  {
    hide ForwardFrom, ReverseAhead;
    var xp := Net(p, w);
    if Forward(p, w).Some? {
      ForwardAtMid(p, 0, xp);
      MulMonotone(p.Unit(), Forward(p, w).value, ForwardFrom(p, 0, xp).value);
      MulMonotone(p.field0, xp, w);
    }
    ReverseAtMid(p, 0, 0, xp);
    MulMonotone(p.field0, Reverse(p, w), ReverseAhead(p, 0, 0, xp));
    MulMonotone(p.Unit(), xp, w);
  }

  /**
   Quoting one way and back never returns more than the input, whatever the position is at
   either quote.
   */
  lemma NoProfitableRoundTrip(p: Book, q: Book, w: nat)
    requires p.Valid() && q == p.(pos := q.pos, posIsCurrent := q.posIsCurrent)
    ensures Forward(p, Reverse(q, w)).Some? ==> Forward(p, Reverse(q, w)).value <= w
    ensures Forward(p, w).Some? && Forward(p, w).value >= 0 ==> Reverse(q, Forward(p, w).value) <= w
  {
    hide Forward, Reverse;
    assert q.Valid() && q.Unit() == p.Unit();
    QuotesAtMid(p, w);
    QuotesAtMid(q, w);
    QuotesAtMid(p, Reverse(q, w));
    if Forward(p, Reverse(q, w)).Some? {
      Cancel(p.Unit(), Forward(p, Reverse(q, w)).value, w);
    }
    if Forward(p, w).Some? && Forward(p, w).value >= 0 {
      QuotesAtMid(q, Forward(p, w).value);
      Cancel(p.field0, Reverse(q, Forward(p, w).value), w);
    }
  }
}
