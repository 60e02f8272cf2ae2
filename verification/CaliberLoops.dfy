/**
 The Caliber quotes as the source loops compute them, on every book: the divisions round towards
 minus infinity and fail on a zero divisor, amounts may be negative, and an empty ladder has no
 last rung. On the books of the contract they are the ladder quotes of `Caliber`.
 */
module CaliberLoops {
  import opened Wrappers
  import opened SwapMath
  import opened Caliber

  function FloorDiv(a: int, b: int): Option<int> {
    if b == 0 then None
    else if b > 0 then Some(a / b)
    else Some(-a / -b)
  }

  /** Division rounds towards minus infinity whatever the signs, and fails exactly on a zero divisor. */
  lemma FloorDivExactly(a: int, b: int)
    ensures FloorDiv(a, b).None? <==> b == 0
    ensures b > 0 ==> b * FloorDiv(a, b).value <= a < b * FloorDiv(a, b).value + b
    ensures b < 0 ==> b * FloorDiv(a, b).value >= a > b * FloorDiv(a, b).value + b
  {
    if b < 0 {
      var q := -a / -b;
      assert -b * q <= -a < -b * q + -b;
    }
  }

  function NetInput(p: Book, w: nat): int {
    w - w * p.fee / MILLION
  }

  // ---- Forward ----

  function RungThreshold(p: Book, i: nat): Option<int>
    requires i < |p.ladder|
  {
    match FloorDiv(MILLION * 2 * p.ladder[i].y, Discount(p, p.ladder[i].x) + Discount(p, p.XNext(i)))
    case None => None
    case Some(worth) => FloorDiv(worth * p.Unit() + p.field0 - 1, p.field0)
  }

  function RungPart(p: Book, i: nat, xp: int): Option<int>
    requires i < |p.ladder|
  {
    var a, b, y := Discount(p, p.ladder[i].x), Discount(p, p.XNext(i)), p.ladder[i].y;
    match FloorDiv(p.field0 * xp, p.Unit())
    case None => None
    case Some(r) => FloorDiv(r * 2 * y * a, MILLION * 2 * y + r * (a - b))
  }

  function TailPart(p: Book, xp: int): Option<int> {
    if p.ladder == [] then None
    else FloorDiv(p.field0 * xp * Discount(p, p.XNext(|p.ladder| - 1)), p.Unit() * MILLION)
  }

  /** What the forward loop still buys from rung i on. */
  function ForwardRest(p: Book, i: nat, xp: int): Option<int>
    requires i <= |p.ladder|
    decreases |p.ladder| - i
  {
    if i == |p.ladder| then TailPart(p, xp)
    else
      match RungThreshold(p, i)
      case None => None
      case Some(th) =>
        if xp >= th then Plus(p.ladder[i].y, ForwardRest(p, i + 1, xp - th)) else RungPart(p, i, xp)
  }

  function ForwardLoop(p: Book, w: nat): Option<int> {
    Capped(ForwardRest(p, 0, NetInput(p, w)), p.ry)
  }

  /** `quote_forward`. */
  method QuoteForward(p: Book, w: nat) returns (q: Option<int>)
    ensures q == ForwardLoop(p, w)
  {
    hide RungThreshold, RungPart, TailPart, NetInput;
    var xp := NetInput(p, w);
    var acc := 0;
    var i := 0;
    while i < |p.ladder|
      invariant 0 <= i <= |p.ladder|
      invariant Plus(acc, ForwardRest(p, i, xp)) == ForwardRest(p, 0, NetInput(p, w))
    {
      var th := RungThreshold(p, i);
      if th.None? {
        return None;
      }
      if xp < th.value {
        return Capped(Plus(acc, RungPart(p, i, xp)), p.ry);
      }
      acc := acc + p.ladder[i].y;
      xp := xp - th.value;
      i := i + 1;
    }
    return Capped(Plus(acc, TailPart(p, xp)), p.ry);
  }

  lemma ThresholdAgrees(p: Book, i: nat)
    requires p.Valid() && i < |p.ladder| && p.Priced(i)
    ensures RungThreshold(p, i) == Some(Threshold(p, i))
  {
  }

  /** A partial fill as the source writes it. */
  lemma FillFraction(r: nat, y: nat, a: nat, d: nat)
    requires y >= 1
    ensures FloorDiv(r * 2 * y * a, MILLION * 2 * y + r * d) == Some(Fill(r, 2 * y * a, MILLION * 2 * y, d))
  {
    MulMonotone(r, 0, d);
    Regroup(r, 2 * y, a);
    assert r * (2 * y) == r * 2 * y;
  }

  lemma PartAgrees(p: Book, i: nat, xp: nat)
    requires p.Valid() && i < |p.ladder| && p.Priced(i)
    ensures RungPart(p, i, xp) == Some(PartialFill(p, i, xp))
  {
    hide Fill;
    DiscountFacts(p, i);
    var a, b := Discount(p, p.ladder[i].x), Discount(p, p.XNext(i));
    FillFraction(AtMid(p, xp), p.ladder[i].y, a, a - b);
  }

  lemma TailAgrees(p: Book, xp: nat)
    requires p.Valid()
    ensures TailPart(p, xp) == Some(ForwardTail(p, xp))
  {
  }

  /** A rung whose discounts cancel out stops the loop. */
  lemma ZeroDiscountFails(p: Book, i: nat, xp: int)
    requires i < |p.ladder| && Discount(p, p.ladder[i].x) + Discount(p, p.XNext(i)) == 0
    ensures ForwardRest(p, i, xp) == None
  {
  }

  /** No rung's discounts are negative on average. */
  predicate NothingFree(p: Book) {
    forall i {:trigger p.Priced(i)} :: 0 <= i < |p.ladder| ==>
      Discount(p, p.ladder[i].x) + Discount(p, p.XNext(i)) >= 0
  }

  /**
   A rung without a price either stops the loop or is free: its threshold is not positive. The loop
   charges a rung what it is worth at the mid price exactly if the rung has a price.
   */
  lemma RungCostsExactly(p: Book, i: nat)
    requires p.Valid() && i < |p.ladder|
    ensures
      var th := RungThreshold(p, i);
      && (th.None? <==> Discount(p, p.ladder[i].x) + Discount(p, p.XNext(i)) == 0)
      && (th.Some? ==> (th.value > 0 <==> p.Priced(i)))
      && (th.Some? ==> (p.Unit() * p.ladder[i].y <= p.field0 * th.value <==> p.Priced(i)))
  {
    var y := p.ladder[i].y;
    var sum := Discount(p, p.ladder[i].x) + Discount(p, p.XNext(i));
    if p.Priced(i) {
      ThresholdAgrees(p, i);
      RungAtMid(p, i);
      ThresholdPositive(p, i);
    } else if sum < 0 {
      FreeRung(p, i, FloorDiv(MILLION * 2 * y, sum).value);
      MulMonotone(p.Unit(), 1, y);
    }
  }

  lemma FreeRung(p: Book, i: nat, worth: int)
    requires p.Valid() && i < |p.ladder| && Discount(p, p.ladder[i].x) + Discount(p, p.XNext(i)) < 0
    requires FloorDiv(MILLION * 2 * p.ladder[i].y, Discount(p, p.ladder[i].x) + Discount(p, p.XNext(i))) == Some(worth)
    ensures RungThreshold(p, i).Some? && RungThreshold(p, i).value <= 0
    ensures p.field0 * RungThreshold(p, i).value <= 0
  {
    var sum := Discount(p, p.ladder[i].x) + Discount(p, p.XNext(i));
    BelowZero(MILLION * 2 * p.ladder[i].y, -sum);
    assert worth <= -1;
    MulMonotone(p.Unit(), worth, -1);
    var th := RungThreshold(p, i).value;
    assert p.field0 * th <= worth * p.Unit() + p.field0 - 1;
    if th >= 1 {
      MulMonotone(p.field0, 1, th);
    }
    MulMonotone(p.field0, th, 0);
  }

  lemma BelowZero(a: int, b: nat)
    requires a >= 1 && b >= 1
    ensures -a / b <= -1
  {
  }

  /**
   Where the ladder quote exists the loop returns it. If nothing is free the loop fails wherever it
   does not.
   */
  lemma {:induction false} ForwardRestAgrees(p: Book, i: nat, xp: nat)
    requires p.Valid() && i <= |p.ladder| && (ForwardFrom(p, i, xp).Some? || NothingFree(p))
    ensures ForwardRest(p, i, xp) == ForwardFrom(p, i, xp)
    decreases |p.ladder| - i
  {
    hide ForwardTail, PartialFill, Threshold, RungThreshold, RungPart, TailPart;
    if i == |p.ladder| {
      TailAgrees(p, xp);
    } else if p.Priced(i) {
      ThresholdAgrees(p, i);
      if xp >= Threshold(p, i) {
        ForwardRestAgrees(p, i + 1, xp - Threshold(p, i));
      } else {
        PartAgrees(p, i, xp);
      }
    } else {
      ZeroDiscountFails(p, i, xp);
    }
  }

  lemma ForwardAgrees(p: Book, w: nat)
    requires p.Valid() && (Forward(p, w).Some? || NothingFree(p))
    ensures ForwardLoop(p, w) == Forward(p, w)
  {
    hide ForwardRest, ForwardFrom;
    ForwardRestAgrees(p, 0, Net(p, w));
  }

  // ---- Reverse ----

  function RungGives(p: Book, i: nat, offset: int, taken: int): Option<int>
    requires i < |p.ladder|
  {
    var y := p.ladder[i].y;
    var rest := y - offset;
    var a, b := Markup(p, p.ladder[i].x), Markup(p, p.XNext(i));
    match FloorDiv((b - a) * offset, y)
    case None => None
    case Some(rise) =>
      FloorDiv(taken * MILLION * p.Unit() * 2 * rest, p.field0 * (2 * rest * (a + rise) + taken * (b - (a + rise))))
  }

  function TailGives(p: Book, xp: int): Option<int> {
    if p.ladder == [] then None
    else FloorDiv(xp * MILLION * p.Unit(), p.field0 * Markup(p, p.XNext(|p.ladder| - 1)))
  }

  /** What the reverse loop still gives from rung i on. */
  function ReverseRest(p: Book, i: nat, cum: nat, started: bool, xp: int): Option<int>
    requires i <= |p.ladder|
    decreases |p.ladder| - i
  {
    if i == |p.ladder| then TailGives(p, xp)
    else
      var y := p.ladder[i].y;
      if !started && p.Position() >= cum + y then ReverseRest(p, i + 1, cum + y, false, xp)
      else
        var offset := if started then 0 else p.Position() - cum;
        var taken := MinInt(xp, y - offset);
        match RungGives(p, i, offset, taken)
        case None => None
        case Some(out) =>
          if xp == taken then Some(out) else Plus(out, ReverseRest(p, i + 1, cum + y, true, xp - taken))
  }

  function ReverseLoop(p: Book, w: nat): Option<int> {
    Capped(ReverseRest(p, 0, 0, false, NetInput(p, w)), p.rx)
  }

  /** `quote_reverse`. */
  method QuoteReverse(p: Book, w: nat) returns (q: Option<int>)
    ensures q == ReverseLoop(p, w)
  {
    hide RungGives, TailGives, NetInput;
    var xp := NetInput(p, w);
    var pos := p.Position();
    var acc := 0;
    var cum: nat := 0;
    var started := false;
    var i := 0;
    while i < |p.ladder|
      invariant 0 <= i <= |p.ladder|
      invariant Plus(acc, ReverseRest(p, i, cum, started, xp)) == ReverseRest(p, 0, 0, false, NetInput(p, w))
    {
      var y := p.ladder[i].y;
      if !started && pos >= cum + y {
        cum := cum + y;
        i := i + 1;
        continue;
      }
      var offset: int := if started then 0 else pos - cum;
      started := true;
      var taken := MinInt(xp, y - offset);
      var out := RungGives(p, i, offset, taken);
      if out.None? {
        return None;
      }
      acc := acc + out.value;
      xp := xp - taken;
      if xp == 0 {
        return Some(MinInt(acc, p.rx));
      }
      cum := cum + y;
      i := i + 1;
    }
    return Capped(Plus(acc, TailGives(p, xp)), p.rx);
  }

  lemma GivesAgrees(p: Book, i: nat, offset: nat, taken: nat)
    requires p.Valid() && i < |p.ladder| && offset < p.ladder[i].y
    ensures RungGives(p, i, offset, taken) == Some(ReverseFill(p, i, offset, taken))
  {
    hide ReverseFill, MarkupAt, Book.Valid, FloorDiv;
    RiseAgrees(p, i, offset);
    ReverseFillFraction(p, i, offset, taken);
    var rest := p.ladder[i].y - offset;
    var a := MarkupAt(p, i, offset);
    Reordered(taken, p.Unit(), rest);
    WholeDivisor(taken * (MILLION * p.Unit() * 2 * rest),
                 p.field0 * (2 * rest * a + taken * (Markup(p, p.XNext(i)) - a)));
  }

  lemma RiseAgrees(p: Book, i: nat, offset: nat)
    requires p.Valid() && i < |p.ladder| && offset < p.ladder[i].y
    ensures FloorDiv((Markup(p, p.XNext(i)) - Markup(p, p.ladder[i].x)) * offset, p.ladder[i].y)
            == Some(MarkupAt(p, i, offset) - Markup(p, p.ladder[i].x))
  {
    MarkupFacts(p, i);
  }

  lemma Reordered(taken: nat, unit: nat, rest: nat)
    ensures taken * (MILLION * unit * 2 * rest) == taken * MILLION * unit * 2 * rest
  {
  }

  lemma WholeDivisor(a: int, b: int)
    requires b >= 1
    ensures FloorDiv(a, b) == Some(a / b)
  {
  }

  lemma TailGivesAgrees(p: Book, xp: nat)
    requires p.Valid()
    ensures TailGives(p, xp) == Some(ReverseTail(p, xp))
  {
    MarkupFacts(p, |p.ladder| - 1);
    MulMonotone(p.field0, 1, Markup(p, p.XNext(|p.ladder| - 1)));
  }

  /** Past the position: breaking off with nothing left loses nothing. */
  lemma {:induction false} StartedAgrees(p: Book, i: nat, cum: nat, xp: nat)
    requires p.Valid() && i <= |p.ladder|
    ensures ReverseRest(p, i, cum, true, xp) == Some(ReverseFrom(p, i, xp))
    decreases |p.ladder| - i
  {
    hide RungGives, TailGives, ReverseFill, ReverseTail;
    if i == |p.ladder| {
      TailGivesAgrees(p, xp);
    } else {
      var taken := Min(xp, p.ladder[i].y);
      GivesAgrees(p, i, 0, taken);
      EarlyBreak(p, i + 1);
      StartedAgrees(p, i + 1, cum + p.ladder[i].y, xp - taken);
    }
  }

  lemma {:induction false} ReverseRestAgrees(p: Book, i: nat, cum: nat, xp: nat)
    requires p.Valid() && i <= |p.ladder| && cum <= p.Position()
    ensures ReverseRest(p, i, cum, false, xp) == Some(ReverseAhead(p, i, cum, xp))
    decreases |p.ladder| - i
  {
    hide RungGives, TailGives, ReverseFill, ReverseTail;
    if i == |p.ladder| {
      TailGivesAgrees(p, xp);
    } else if p.Position() >= cum + p.ladder[i].y {
      ReverseRestAgrees(p, i + 1, cum + p.ladder[i].y, xp);
    } else {
      var offset := p.Position() - cum;
      var taken := Min(xp, p.ladder[i].y - offset);
      GivesAgrees(p, i, offset, taken);
      EarlyBreak(p, i + 1);
      StartedAgrees(p, i + 1, cum + p.ladder[i].y, xp - taken);
    }
  }

  /** The reverse loop returns the ladder quote. */
  lemma ReverseAgrees(p: Book, w: nat)
    requires p.Valid()
    ensures ReverseLoop(p, w) == Some(Reverse(p, w))
  {
    hide ReverseRest, ReverseAhead;
    ReverseRestAgrees(p, 0, 0, Net(p, w));
  }

  // ---- Which position counts ----

  /** The loop knows the position only as the one of the current block, or none. */
  lemma {:induction false} SamePosition(p: Book, q: Book, i: nat, cum: nat, started: bool, xp: int)
    requires q == p.(pos := q.pos, posIsCurrent := q.posIsCurrent) && i <= |p.ladder|
    requires (if p.posIsCurrent then p.pos else 0) == if q.posIsCurrent then q.pos else 0
    ensures ReverseRest(p, i, cum, started, xp) == ReverseRest(q, i, cum, started, xp)
    decreases |p.ladder| - i
  {
    hide RungGives, TailGives;
    if i == |p.ladder| {
      SameTail(p, q, xp);
    } else {
      var y := p.ladder[i].y;
      var offset := if started then 0 else p.Position() - cum;
      var taken := MinInt(xp, y - offset);
      SameRung(p, q, i, offset, taken);
      SamePosition(p, q, i + 1, cum + y, false, xp);
      SamePosition(p, q, i + 1, cum + y, true, xp - taken);
    }
  }

  lemma SameRung(p: Book, q: Book, i: nat, offset: int, taken: int)
    requires q == p.(pos := q.pos, posIsCurrent := q.posIsCurrent) && i < |p.ladder|
    ensures RungGives(p, i, offset, taken) == RungGives(q, i, offset, taken)
  {
    hide FloorDiv;
    assert p.Unit() == q.Unit() && p.XNext(i) == q.XNext(i);
  }

  lemma SameTail(p: Book, q: Book, xp: int)
    requires q == p.(pos := q.pos, posIsCurrent := q.posIsCurrent)
    ensures TailGives(p, xp) == TailGives(q, xp)
  {
    hide FloorDiv;
  }

  /** A position of another block changes no quote: it counts as the position 0 of this one. */
  lemma StalePositionIgnored(p: Book, pos: nat, w: nat)
    requires !p.posIsCurrent
    ensures ReverseLoop(p, w) == ReverseLoop(p.(pos := pos), w) == ReverseLoop(p.(pos := 0, posIsCurrent := true), w)
  {
    SamePosition(p, p.(pos := pos), 0, 0, false, NetInput(p, w));
    SamePosition(p, p.(pos := 0, posIsCurrent := true), 0, 0, false, NetInput(p, w));
  }

  // ---- No profitable round trip of the loops ----

  /**
   The loops themselves never return more than was put in, one way and back, whatever the position
   at either quote, as long as no rung is free or no free rung is reached.
   */
  lemma NoProfitableLoops(p: Book, q: Book, w: nat)
    requires p.Valid() && q == p.(pos := q.pos, posIsCurrent := q.posIsCurrent)
    requires NothingFree(p) || (Forward(p, w).Some? && Forward(p, Reverse(q, w)).Some?)
    ensures
      var back := ReverseLoop(q, w);
      && back.Some? && back.value >= 0
      && (ForwardLoop(p, back.value).Some? ==> ForwardLoop(p, back.value).value <= w)
    ensures
      var there := ForwardLoop(p, w);
      there.Some? && there.value >= 0 ==>
        ReverseLoop(q, there.value).Some? && ReverseLoop(q, there.value).value <= w
  {
    hide ForwardLoop, ReverseLoop, Forward, Reverse;
    assert q.Valid();
    ReverseAgrees(q, w);
    ForwardAgrees(p, Reverse(q, w));
    ForwardAgrees(p, w);
    NoProfitableRoundTrip(p, q, w);
    if Forward(p, w).Some? && Forward(p, w).value >= 0 {
      ReverseAgrees(q, Forward(p, w).value);
    }
  }

  /** A book whose only rung is free at a high mid price. */
  function FreeBook(): Book {
    Book([Rung(3 * MILLION, 1)], 0, 10 * BILLION, 0, 1, 0, 0, false, 10, 10)
  }

  lemma FreeThreshold()
    ensures RungThreshold(FreeBook(), 0) == Some(0)
  {
    var p := FreeBook();
    assert Discount(p, p.ladder[0].x) + Discount(p, p.XNext(0)) == -4 * MILLION;
    assert FloorDiv(MILLION * 2 * 1, -4 * MILLION) == Some(-1);
    assert FloorDiv(-1 * p.Unit() + p.field0 - 1, p.field0) == Some(0);
  }

  lemma FreeForward()
    ensures ForwardLoop(FreeBook(), 0) == Some(1)
  {
    hide RungThreshold, RungPart, Discount;
    var p := FreeBook();
    FreeThreshold();
    assert p.field0 * 0 * Discount(p, p.XNext(0)) == 0;
    assert ForwardRest(p, 1, 0) == Some(0);
    assert NetInput(p, 0) == 0;
    assert ForwardRest(p, 0, 0) == Some(1);
  }

  lemma FreeReverse()
    ensures ReverseLoop(FreeBook(), 0) == Some(0)
  {
    var p := FreeBook();
    assert RungGives(p, 0, 0, 0) == Some(0);
    hide RungGives;
    assert ReverseRest(p, 0, 0, false, 0) == Some(0);
  }

  /** On it the round trip of nothing gives one unit. */
  lemma FreeRoundTrip()
    ensures FreeBook().Valid() && !NothingFree(FreeBook())
    ensures ReverseLoop(FreeBook(), 0) == Some(0) && ForwardLoop(FreeBook(), 0) == Some(1)
  {
    hide ForwardLoop, ReverseLoop;
    FreeForward();
    FreeReverse();
    assert !FreeBook().Priced(0);
  }
}
