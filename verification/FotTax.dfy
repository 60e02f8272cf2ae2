/**
 Fee-on-transfer arithmetic: the two pairs of integer maps that invert each other (net and
 gross-up, cost and nominal), for every tax variant, direction and pool.
 */
module FotTax {
  import opened Wrappers
  import opened SwapMath

  const BASIS: nat := 10_000

  type Address = nat

  datatype Tax =
    | FlatRate(feeBps: nat)
    | BothSides(feeBps: nat)
    | BuySell(buyFeeBps: nat, sellFeeBps: nat, pairs: seq<Address>, swapBackThreshold: nat)
  {
    predicate AppliesTo(pool: Address) {
      BuySell? ==> pool in pairs
    }

    function OutputFee(): nat {
      if BuySell? then buyFeeBps else feeBps
    }

    /** `input_fee_bps`. */
    function InputFee(): nat {
      match this
      case FlatRate(_) => 0
      case BothSides(fee) => fee
      case BuySell(_, sell, _, _) => sell
    }

    function OutputNet(gross: nat): nat {
      ApplyFee(gross, OutputFee())
    }

    function InputNet(gross: nat): nat {
      match this
      case FlatRate(_) => gross
      case BothSides(fee) => ApplyFee(gross, fee)
      case BuySell(_, sell, _, _) => ApplyFee(gross, sell)
    }

    function OutputGrossUp(net: nat): nat {
      GrossUpFor(net, OutputFee())
    }

    function InputGrossUp(net: nat): nat {
      match this
      case FlatRate(_) => net
      case BothSides(fee) => GrossUpFor(net, fee)
      case BuySell(_, sell, _, _) => GrossUpFor(net, sell)
    }

    /** `input_cost_on_top`: what the payer spends so that the pool receives `nominal` in full. */
    function CostOnTop(nominal: nat): nat {
      if InputFee() == 0 then nominal else nominal + nominal * InputFee() / BASIS
    }

    /** `input_nominal_on_top`: the nominal amount a balance pays for. */
    function NominalOnTop(balance: nat): nat {
      if InputFee() == 0 then balance else ((balance + 1) * BASIS - 1) / (BASIS + InputFee())
    }
  }

  function ApplyFee(gross: nat, feeBps: nat): nat {
    if feeBps >= BASIS then 0
    else
      TaxFits(gross, feeBps);
      gross - gross * feeBps / BASIS
  }

  lemma TaxFits(gross: nat, feeBps: nat)
    requires feeBps < BASIS
    ensures gross * feeBps / BASIS <= gross
  {
    MulMonotone(gross, feeBps, BASIS);
    FloorAtLeast(gross * feeBps, BASIS, gross + 1);
  }

  function GrossUpFor(net: nat, feeBps: nat): nat {
    if feeBps >= BASIS || net == 0 then 0 else (net - 1) * BASIS / (BASIS - feeBps) + 1
  }

  // ---- Net and gross-up ----

  /** Deducting the rounded-down tax is the same as rounding the net amount up. */
  lemma NetIsRoundedUp(gross: nat, feeBps: nat)
    requires feeBps < BASIS
    ensures ApplyFee(gross, feeBps) == CeilDiv(gross * (BASIS - feeBps), BASIS)
  {
    var k := gross * feeBps / BASIS;
    DivFacts(gross * feeBps, BASIS);
    TaxFits(gross, feeBps);
    assert gross * (BASIS - feeBps) == gross * BASIS - gross * feeBps;
    CeilAtMost(gross * (BASIS - feeBps), BASIS, gross - k);
    if gross > k {
      CeilAtMost(gross * (BASIS - feeBps), BASIS, gross - k - 1);
    }
  }

  /** Net at least n exactly for the gross amounts from the gross-up of n on. */
  lemma FeeAdjunction(gross: nat, net: nat, feeBps: nat)
    requires feeBps < BASIS
    ensures ApplyFee(gross, feeBps) >= net <==> gross >= GrossUpFor(net, feeBps)
  {
    if net > 0 {
      TaxFits(gross, feeBps);
      FloorAtLeast((net - 1) * BASIS, BASIS - feeBps, gross);
      assert (BASIS - feeBps) * gross == BASIS * gross - gross * feeBps;
      if gross + 1 >= net {
        FloorAtLeast(gross * feeBps, BASIS, gross + 1 - net);
      }
    }
  }

  /** One more unit of gross brings at most one more unit of net. */
  lemma NetStep(gross: nat, feeBps: nat)
    requires feeBps < BASIS
    ensures ApplyFee(gross, feeBps) <= ApplyFee(gross + 1, feeBps) <= ApplyFee(gross, feeBps) + 1
  {
    var k := gross * feeBps / BASIS;
    DivFacts(gross * feeBps, BASIS);
    assert (gross + 1) * feeBps == gross * feeBps + feeBps;
    FloorAtLeast((gross + 1) * feeBps, BASIS, k);
    FloorAtLeast((gross + 1) * feeBps, BASIS, k + 2);
  }

  /** The gross-up is the least solution, and it hits the net amount exactly. */
  lemma NetOfGrossUp(net: nat, feeBps: nat)
    requires feeBps < BASIS
    ensures ApplyFee(GrossUpFor(net, feeBps), feeBps) == net
  {
    var g := GrossUpFor(net, feeBps);
    FeeAdjunction(g, net, feeBps);
    if g > 0 {
      FeeAdjunction(g - 1, net, feeBps);
      NetStep(g - 1, feeBps);
    }
  }

  /** The two maps are adjoint exactly below a full fee. */
  lemma AdjointExactlyBelowFullFee(feeBps: nat)
    ensures
      (forall gross: nat, net: nat :: ApplyFee(gross, feeBps) >= net <==> gross >= GrossUpFor(net, feeBps))
      <==> feeBps < BASIS
  {
    if feeBps < BASIS {
      forall gross: nat, net: nat ensures ApplyFee(gross, feeBps) >= net <==> gross >= GrossUpFor(net, feeBps) {
        FeeAdjunction(gross, net, feeBps);
      }
    } else {
      assert ApplyFee(0, feeBps) < 1 && 0 >= GrossUpFor(1, feeBps);
    }
  }

  // ---- Cost and nominal ----

  /** `input_nominal_on_top(b)` is the greatest nominal amount whose cost a balance b covers. */
  lemma OnTopAdjunction(tax: Tax, nominal: nat, balance: nat)
    ensures tax.CostOnTop(nominal) <= balance <==> nominal <= tax.NominalOnTop(balance)
  {
    var f := tax.InputFee();
    if f != 0 {
      FloorAtLeast((balance + 1) * BASIS - 1, BASIS + f, nominal);
      assert (BASIS + f) * nominal == nominal * BASIS + nominal * f;
      if nominal <= balance {
        FloorAtLeast(nominal * f, BASIS, balance - nominal + 1);
      }
    }
  }

  lemma CostIncreasing(tax: Tax, m: nat, n: nat)
    requires m < n
    ensures tax.CostOnTop(m) < tax.CostOnTop(n)
  {
    var f := tax.InputFee();
    MulMonotone(f, m, n);
    DivFacts(m * f, BASIS);
    FloorAtLeast(n * f, BASIS, m * f / BASIS);
  }

  lemma NominalOfCost(tax: Tax, nominal: nat)
    ensures tax.NominalOnTop(tax.CostOnTop(nominal)) == nominal
  {
    var n := tax.NominalOnTop(tax.CostOnTop(nominal));
    OnTopAdjunction(tax, nominal, tax.CostOnTop(nominal));
    OnTopAdjunction(tax, n, tax.CostOnTop(nominal));
    if n > nominal {
      CostIncreasing(tax, nominal, n);
    }
  }

  /** What a balance leaves unspent. */
  function Slack(tax: Tax, balance: nat): int {
    balance - tax.CostOnTop(tax.NominalOnTop(balance))
  }

  /** The unspent rest is always less than the cost of one more unit. */
  lemma SlackBelowStep(tax: Tax, balance: nat)
    ensures 0 <= Slack(tax, balance)
    ensures var n := tax.NominalOnTop(balance); Slack(tax, balance) < tax.CostOnTop(n + 1) - tax.CostOnTop(n)
  {
    var n := tax.NominalOnTop(balance);
    OnTopAdjunction(tax, n, balance);
    OnTopAdjunction(tax, n + 1, balance);
  }

  /** One more nominal unit costs at most two while the fee is at most the whole. */
  lemma CostStep(tax: Tax, nominal: nat)
    requires tax.InputFee() <= BASIS
    ensures tax.CostOnTop(nominal + 1) - tax.CostOnTop(nominal) <= 2
  {
    var f := tax.InputFee();
    DivFacts(nominal * f, BASIS);
    assert (nominal + 1) * f == nominal * f + f;
    FloorAtLeast((nominal + 1) * f, BASIS, nominal * f / BASIS + 2);
  }

  /** A fee above the whole makes some unit cost at least three. */
  lemma SteepStep(tax: Tax) returns (nominal: nat)
    requires tax.InputFee() > BASIS
    ensures tax.CostOnTop(nominal + 1) - tax.CostOnTop(nominal) >= 3
  {
    var f := tax.InputFee();
    var d := f - BASIS;
    nominal := 0;
    while (nominal + 1) * d < BASIS
      invariant nominal * d < BASIS
      decreases BASIS - nominal * d
    {
      assert (nominal + 1) * d == nominal * d + d;
      nominal := nominal + 1;
    }
    assert nominal * f == nominal * BASIS + nominal * d;
    assert (nominal + 1) * f == (nominal + 1) * BASIS + (nominal + 1) * d;
    FloorAtLeast(nominal * f, BASIS, nominal + 1);
    FloorAtLeast((nominal + 1) * f, BASIS, nominal + 2);
  }

  /** At most one unit stays unspent on every balance exactly while the fee is at most the whole. */
  lemma SlackAtMostOneExactly(tax: Tax)
    ensures (forall balance: nat :: Slack(tax, balance) <= 1) <==> tax.InputFee() <= BASIS
  {
    if tax.InputFee() <= BASIS {
      forall balance: nat ensures Slack(tax, balance) <= 1 {
        SlackBelowStep(tax, balance);
        CostStep(tax, tax.NominalOnTop(balance));
      }
    } else {
      var n := SteepStep(tax);
      var balance := tax.CostOnTop(n + 1) - 1;
      OnTopAdjunction(tax, n + 1, balance);
      OnTopAdjunction(tax, n, balance);
      assert tax.NominalOnTop(balance) == n;
      assert Slack(tax, balance) >= 2;
    }
  }

  /** Grossing up a deduction asks for no less than the on-top cost exactly below a full fee, and for nothing. */
  lemma GrossUpCoversCost(tax: Tax, nominal: nat)
    ensures tax.InputGrossUp(nominal) >= tax.CostOnTop(nominal) <==> tax.InputFee() < BASIS || nominal == 0
  {
    if tax.InputFee() < BASIS {
      PartialGrossUp(tax, nominal);
    }
  }

  lemma PartialGrossUp(tax: Tax, nominal: nat)
    requires tax.InputFee() < BASIS
    ensures tax.InputGrossUp(nominal) >= tax.CostOnTop(nominal)
  {
    var f := tax.InputFee();
    if nominal > 0 && f > 0 {
      var q := nominal * f / BASIS;
      DivFacts(nominal * f, BASIS);
      Deducted(nominal - 1, f, q);
      FloorAtLeast((nominal - 1) * BASIS, BASIS - f, nominal - 1 + q);
    }
  }

  lemma Deducted(n: nat, f: nat, q: nat)
    requires f < BASIS && BASIS * q <= (n + 1) * f
    ensures (BASIS - f) * (n + q) <= n * BASIS
  {
    var d := BASIS - f;
    assert d * (n + q) == d * n + d * q;
    assert d * n == n * BASIS - n * f;
    assert d * q == BASIS * q - f * q;
    assert (n + 1) * f == n * f + f;
    if q > 0 {
      MulMonotone(f, 1, q);
    }
  }

  // ---- Directions and pools ----

  /** Both directions of every variant. */
  lemma TaxAdjunctions(tax: Tax, gross: nat, net: nat)
    ensures tax.OutputFee() < BASIS ==> (tax.OutputNet(gross) >= net <==> gross >= tax.OutputGrossUp(net))
    ensures tax.OutputFee() < BASIS ==> tax.OutputNet(tax.OutputGrossUp(net)) == net
    ensures tax.InputFee() < BASIS ==> (tax.InputNet(gross) >= net <==> gross >= tax.InputGrossUp(net))
    ensures tax.InputFee() < BASIS ==> tax.InputNet(tax.InputGrossUp(net)) == net
  {
    if tax.OutputFee() < BASIS {
      FeeAdjunction(gross, net, tax.OutputFee());
      NetOfGrossUp(net, tax.OutputFee());
    }
    if tax.InputFee() < BASIS {
      FeeAdjunction(gross, net, tax.InputFee());
      NetOfGrossUp(net, tax.InputFee());
    }
  }

  datatype Token = Token(address: Address, fotTax: Option<Tax>) {
    predicate Taxed(pool: Address) {
      fotTax.Some? && fotTax.value.AppliesTo(pool)
    }

    /** `fot_net_for`, `fot_gross_up_for`, `fot_input_net_for`, `fot_input_gross_up_for`. */
    function NetFor(pool: Address, gross: nat): nat {
      if Taxed(pool) then fotTax.value.OutputNet(gross) else gross
    }

    function GrossUpFor(pool: Address, net: nat): nat {
      if Taxed(pool) then fotTax.value.OutputGrossUp(net) else net
    }

    function InputNetFor(pool: Address, gross: nat): nat {
      if Taxed(pool) then fotTax.value.InputNet(gross) else gross
    }

    function InputGrossUpFor(pool: Address, net: nat): nat {
      if Taxed(pool) then fotTax.value.InputGrossUp(net) else net
    }

    /** `fot_input_cost_for` and `fot_input_nominal_for_balance`. */
    function InputCostFor(pool: Address, nominal: nat): nat {
      if Taxed(pool) then fotTax.value.CostOnTop(nominal) else nominal
    }

    function InputNominalForBalance(pool: Address, balance: nat): nat {
      if Taxed(pool) then fotTax.value.NominalOnTop(balance) else balance
    }

    /** The fee that applies to outputs at the pool is below the whole. */
    predicate PartialOutputFee(pool: Address) {
      Taxed(pool) ==> fotTax.value.OutputFee() < BASIS
    }

    predicate PartialInputFee(pool: Address) {
      Taxed(pool) ==> fotTax.value.InputFee() < BASIS
    }
  }

  /** The pool filter changes nothing about the adjunctions; each side depends on its own fee alone. */
  lemma TokenFeeAdjunctions(token: Token, pool: Address, gross: nat, net: nat)
    ensures token.PartialOutputFee(pool) ==>
              (token.NetFor(pool, gross) >= net <==> gross >= token.GrossUpFor(pool, net))
    ensures token.PartialOutputFee(pool) ==> token.NetFor(pool, token.GrossUpFor(pool, net)) == net
    ensures token.PartialInputFee(pool) ==>
              (token.InputNetFor(pool, gross) >= net <==> gross >= token.InputGrossUpFor(pool, net))
    ensures token.PartialInputFee(pool) ==> token.InputNetFor(pool, token.InputGrossUpFor(pool, net)) == net
  {
    if token.Taxed(pool) {
      TaxAdjunctions(token.fotTax.value, gross, net);
    }
  }

  lemma TokenOnTopAdjunction(token: Token, pool: Address, nominal: nat, balance: nat)
    ensures token.InputCostFor(pool, nominal) <= balance <==> nominal <= token.InputNominalForBalance(pool, balance)
    ensures token.InputNominalForBalance(pool, token.InputCostFor(pool, nominal)) == nominal
    ensures token.InputGrossUpFor(pool, nominal) >= token.InputCostFor(pool, nominal)
            <==> token.PartialInputFee(pool) || nominal == 0
  {
    if token.Taxed(pool) {
      OnTopAdjunction(token.fotTax.value, nominal, balance);
      NominalOfCost(token.fotTax.value, nominal);
      GrossUpCoversCost(token.fotTax.value, nominal);
    }
  }

  // ---- Which fee acts where ----

  /** The net amount is what is left after a fee, rounded up; a full fee leaves nothing. */
  predicate NetShare(gross: nat, fee: nat, net: nat) {
    if fee >= 10_000 then net == 0
    else gross * (10_000 - fee) <= net * 10_000 < gross * (10_000 - fee) + 10_000
  }

  /** The gross amount is the least one with that net amount; at a full fee there is none, and it is 0. */
  predicate GrossShare(net: nat, fee: nat, gross: nat) {
    if fee >= 10_000 || net == 0 then gross == 0
    else (gross - 1) * (10_000 - fee) <= (net - 1) * 10_000 < gross * (10_000 - fee)
  }

  /** The cost is the nominal amount and a fee on it, rounded down. */
  predicate OnTop(nominal: nat, fee: nat, cost: nat) {
    (cost - nominal) * 10_000 <= nominal * fee < (cost - nominal) * 10_000 + 10_000
  }

  lemma ApplyFeeShare(gross: nat, fee: nat)
    ensures NetShare(gross, fee, ApplyFee(gross, fee))
  {
    if fee < BASIS {
      var k := gross * fee / BASIS;
      DivFacts(gross * fee, BASIS);
      TaxFits(gross, fee);
      assert gross * (BASIS - fee) == gross * BASIS - gross * fee;
    }
  }

  lemma GrossUpShare(net: nat, fee: nat)
    ensures GrossShare(net, fee, GrossUpFor(net, fee))
  {
    if fee < BASIS && net > 0 {
      var d := BASIS - fee;
      var q := (net - 1) * BASIS / d;
      DivFacts((net - 1) * BASIS, d);
      assert (q + 1) * d == d * q + d;
      assert q * d == d * q;
    }
  }

  lemma CostShare(tax: Tax, nominal: nat)
    ensures OnTop(nominal, tax.InputFee(), tax.CostOnTop(nominal))
  {
    DivFacts(nominal * tax.InputFee(), BASIS);
  }

  /**
   Outputs of a two-sided tax bear the buy fee and inputs the sell fee; a symmetric tax bears its one
   fee on both sides, and a flat one on outputs alone.
   */
  lemma FeesBySide(tax: Tax, amount: nat)
    ensures
      match tax
      case FlatRate(fee) =>
        && NetShare(amount, fee, tax.OutputNet(amount)) && GrossShare(amount, fee, tax.OutputGrossUp(amount))
        && tax.InputNet(amount) == tax.InputGrossUp(amount) == amount
        && tax.CostOnTop(amount) == tax.NominalOnTop(amount) == amount
      case BothSides(fee) =>
        && NetShare(amount, fee, tax.OutputNet(amount)) && GrossShare(amount, fee, tax.OutputGrossUp(amount))
        && NetShare(amount, fee, tax.InputNet(amount)) && GrossShare(amount, fee, tax.InputGrossUp(amount))
        && OnTop(amount, fee, tax.CostOnTop(amount))
      case BuySell(buy, sell, _, _) =>
        && NetShare(amount, buy, tax.OutputNet(amount)) && GrossShare(amount, buy, tax.OutputGrossUp(amount))
        && NetShare(amount, sell, tax.InputNet(amount)) && GrossShare(amount, sell, tax.InputGrossUp(amount))
        && OnTop(amount, sell, tax.CostOnTop(amount))
  {
    hide NetShare, GrossShare, OnTop, ApplyFee, GrossUpFor;
    ApplyFeeShare(amount, tax.OutputFee());
    ApplyFeeShare(amount, tax.InputFee());
    GrossUpShare(amount, tax.OutputFee());
    GrossUpShare(amount, tax.InputFee());
    CostShare(tax, amount);
  }

  /** Changing the sell fee changes no output amount, and changing the buy fee no input amount. */
  lemma SidesAreIndependent(tax: Tax, other: nat, amount: nat)
    requires tax.BuySell?
    ensures
      var u := tax.(sellFeeBps := other);
      u.OutputNet(amount) == tax.OutputNet(amount) && u.OutputGrossUp(amount) == tax.OutputGrossUp(amount)
    ensures
      var u := tax.(buyFeeBps := other);
      && u.InputNet(amount) == tax.InputNet(amount) && u.InputGrossUp(amount) == tax.InputGrossUp(amount)
      && u.CostOnTop(amount) == tax.CostOnTop(amount) && u.NominalOnTop(amount) == tax.NominalOnTop(amount)
  {
  }

  /**
   A token is taxed at a pool unless it has no tax, or a two-sided one that does not list the pool: then
   every amount is untouched, and otherwise it is the tax's.
   */
  lemma PoolFilter(token: Token, pool: Address, amount: nat)
    ensures
      if token.fotTax.None? || (token.fotTax.value.BuySell? && pool !in token.fotTax.value.pairs) then
        && token.NetFor(pool, amount) == token.GrossUpFor(pool, amount) == amount
        && token.InputNetFor(pool, amount) == token.InputGrossUpFor(pool, amount) == amount
        && token.InputCostFor(pool, amount) == token.InputNominalForBalance(pool, amount) == amount
      else
        var tax := token.fotTax.value;
        && token.NetFor(pool, amount) == tax.OutputNet(amount)
        && token.GrossUpFor(pool, amount) == tax.OutputGrossUp(amount)
        && token.InputNetFor(pool, amount) == tax.InputNet(amount)
        && token.InputGrossUpFor(pool, amount) == tax.InputGrossUp(amount)
        && token.InputCostFor(pool, amount) == tax.CostOnTop(amount)
        && token.InputNominalForBalance(pool, amount) == tax.NominalOnTop(amount)
  {
  }
}
