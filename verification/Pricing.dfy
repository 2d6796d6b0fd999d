/** What a review costs (src/reviewhive/pricing.py), and what the money columns keep of it
    (`MONEY = Numeric(12, 8)`, src/reviewhive/db/models.py).  Decimal arithmetic is exact here. */
module Pricing {
  import opened Models
  import Critic
  import CriticRun

  /** USD per million tokens. */
  datatype ModelPrice = ModelPrice(inputPerMtok: real, outputPerMtok: real, cacheReadPerMtok: real)

  const PER_MTOK := 1000000.0

  /** The published rates. */
  function PriceFor(model: string): Option<ModelPrice> {
    match model
    case "claude-haiku-4-5" => Some(ModelPrice(1.00, 5.00, 0.10))
    case "claude-sonnet-4-6" => Some(ModelPrice(3.00, 15.00, 0.30))
    case "claude-sonnet-5" => Some(ModelPrice(3.00, 15.00, 0.30))
    case "claude-opus-4-6" => Some(ModelPrice(5.00, 25.00, 0.50))
    case "claude-opus-4-7" => Some(ModelPrice(5.00, 25.00, 0.50))
    case "claude-opus-4-8" => Some(ModelPrice(5.00, 25.00, 0.50))
    case "claude-opus-5" => Some(ModelPrice(5.00, 25.00, 0.50))
    case _ => None
  }

  function Charge(call: AgentCall, p: ModelPrice): real {
    (call.inputTokens as real * p.inputPerMtok
     + call.outputTokens as real * p.outputPerMtok
     + call.cacheReadTokens as real * p.cacheReadPerMtok) / PER_MTOK
  }

  /** What one call cost; None, not zero, for a model without a price. */
  function CostOf(call: AgentCall): Option<real> {
    match PriceFor(call.model)
    case None => None
    case Some(p) => Some(Charge(call, p))
  }

  /** The run's cost, counting only priced calls. */
  function TotalCost(calls: seq<AgentCall>): real {
    if calls == [] then 0.0
    else
      var c := CostOf(calls[|calls| - 1]);
      TotalCost(calls[..|calls| - 1]) + (if c.Some? then c.value else 0.0)
  }

  /** A million tokens of one kind cost that kind's rate. */
  lemma {:induction false} UnitPrices(agent: CallAgent, model: string, p: ModelPrice)
    ensures Charge(AgentCall(agent, model, 1000000, 0, 0), p) == p.inputPerMtok
    ensures Charge(AgentCall(agent, model, 0, 1000000, 0), p) == p.outputPerMtok
    ensures Charge(AgentCall(agent, model, 0, 0, 1000000), p) == p.cacheReadPerMtok
  {
  }

  /** On every priced model output costs five times the input, and a cache read a tenth of it. */
  lemma {:induction false} RatesInProportion(model: string)
    requires PriceFor(model).Some?
    ensures var p := PriceFor(model).value;
            p.outputPerMtok == 5.0 * p.inputPerMtok && 10.0 * p.cacheReadPerMtok == p.inputPerMtok
    ensures PriceFor(model).value.inputPerMtok in {1.0, 3.0, 5.0}
  {
  }

  /** The published input rates, and no others. */
  lemma {:induction false} PricedModels(model: string)
    ensures PriceFor(model).Some?
        <==> model in {"claude-haiku-4-5", "claude-sonnet-4-6", "claude-sonnet-5", "claude-opus-4-6", "claude-opus-4-7",
                       "claude-opus-4-8", "claude-opus-5"}
    ensures PriceFor(model).Some? ==>
              PriceFor(model).value.inputPerMtok == if model == "claude-haiku-4-5" then 1.0
                                                    else if model in {"claude-sonnet-4-6", "claude-sonnet-5"} then 3.0
                                                    else 5.0
  {
  }

  /** The total is call by call; one without a price adds nothing. */
  lemma {:induction false} CallByCall(a: seq<AgentCall>, call: AgentCall, b: seq<AgentCall>)
    ensures TotalCost(a + [call] + b)
         == TotalCost(a) + (if PriceFor(call.model).Some? then Charge(call, PriceFor(call.model).value) else 0.0)
            + TotalCost(b)
  {
    if b == [] {
      assert (a + [call] + b)[..|a|] == a;
    } else {
      assert (a + [call] + b)[..|a + [call] + b| - 1] == a + [call] + b[..|b| - 1];
      CallByCall(a, call, b[..|b| - 1]);
    }
  }

  // ---------------------------------------------------------------- the money column

  const UNITS_PER_USD := 100000000.0

  /** Numeric(12, 8) rounds to eight decimals and refuses ten thousand and more. */
  function Stored(amount: real): Option<real>
    requires amount >= 0.0
  {
    var rounded := (amount * UNITS_PER_USD + 0.5).Floor as real / UNITS_PER_USD;
    if rounded < 10000.0 then Some(rounded) else None
  }

  /** The column rounds to the nearest hundred-millionth, halves up, and refuses what rounds to ten thousand. */
  lemma {:induction false} StoredRounds(amount: real)
    requires amount >= 0.0
    ensures Stored(amount).Some? ==>
              && (Stored(amount).value - amount) * UNITS_PER_USD <= 0.5
              && (amount - Stored(amount).value) * UNITS_PER_USD < 0.5
              && Whole(Stored(amount).value)
    ensures Stored(amount).None? <==> amount * UNITS_PER_USD >= 10000.0 * UNITS_PER_USD - 0.5
  {
    var units := (amount * UNITS_PER_USD + 0.5).Floor;
    assert units >= 0 && units as real / UNITS_PER_USD == Dollars(units);
    assert units as real / UNITS_PER_USD * UNITS_PER_USD == units as real;
    assert units >= 1000000000000 <==> amount * UNITS_PER_USD + 0.5 >= 1000000000000.0;
  }

  function Dollars(units: nat): real {
    units as real / UNITS_PER_USD
  }

  /** The amount is a whole number of hundred-millionths of a dollar. */
  ghost predicate Whole(amount: real) {
    exists units: nat :: amount == Dollars(units)
  }

  lemma {:induction false} WholeIsStoredExactly(amount: real)
    requires Whole(amount)
    ensures amount >= 0.0
    ensures Stored(amount) == if amount < 10000.0 then Some(amount) else None
  {
    var units: nat :| amount == Dollars(units);
    assert amount * UNITS_PER_USD == units as real;
    assert (units as real + 0.5).Floor == units;
  }

  lemma {:induction false} WholeAdds(a: real, b: real)
    requires Whole(a) && Whole(b)
    ensures Whole(a + b)
  {
    var m: nat :| a == Dollars(m);
    var n: nat :| b == Dollars(n);
    assert a + b == Dollars(m + n);
  }

  /** Every published rate is a whole number of cents. */
  lemma {:induction false} RatesAreCents(model: string) returns (i: nat, o: nat, c: nat)
    requires PriceFor(model).Some?
    ensures PriceFor(model).value == ModelPrice(i as real / 100.0, o as real / 100.0, c as real / 100.0)
  {
    var p := PriceFor(model).value;
    i, o, c := (p.inputPerMtok * 100.0).Floor, (p.outputPerMtok * 100.0).Floor, (p.cacheReadPerMtok * 100.0).Floor;
  }

  lemma {:induction false} TokensAtCents(tokens: nat, cents: nat)
    ensures tokens as real * (cents as real / 100.0) / PER_MTOK == Dollars(tokens * cents)
  {
    assert (tokens * cents) as real == tokens as real * cents as real;
  }

  lemma ThreeTerms(a: real, b: real, c: real)
    ensures (a + b + c) / PER_MTOK == a / PER_MTOK + b / PER_MTOK + c / PER_MTOK
  {
  }

  lemma DollarsAdd(a: nat, b: nat, c: nat)
    ensures Dollars(a + b + c) == Dollars(a) + Dollars(b) + Dollars(c)
  {
  }

  lemma {:induction false} PricedInCents(tokens: (nat, nat, nat), cents: (nat, nat, nat))
    ensures (tokens.0 as real * (cents.0 as real / 100.0) + tokens.1 as real * (cents.1 as real / 100.0)
             + tokens.2 as real * (cents.2 as real / 100.0)) / PER_MTOK
         == Dollars(tokens.0 * cents.0 + tokens.1 * cents.1 + tokens.2 * cents.2)
  {
    TokensAtCents(tokens.0, cents.0);
    TokensAtCents(tokens.1, cents.1);
    TokensAtCents(tokens.2, cents.2);
    ThreeTerms(tokens.0 as real * (cents.0 as real / 100.0), tokens.1 as real * (cents.1 as real / 100.0),
               tokens.2 as real * (cents.2 as real / 100.0));
    DollarsAdd(tokens.0 * cents.0, tokens.1 * cents.1, tokens.2 * cents.2);
  }

  /** So every call costs a whole number of hundred-millionths: eight decimals are always enough. */
  lemma {:induction false} CostIsWhole(call: AgentCall)
    requires CostOf(call).Some?
    ensures Whole(CostOf(call).value)
  {
    var i, o, c := RatesAreCents(call.model);
    ChargeIsWhole(call, i, o, c);
  }

  lemma {:induction false} ChargeIsWhole(call: AgentCall, i: nat, o: nat, c: nat)
    ensures Whole(Charge(call, ModelPrice(i as real / 100.0, o as real / 100.0, c as real / 100.0)))
  {
    PricedInCents((call.inputTokens, call.outputTokens, call.cacheReadTokens), (i, o, c));
  }

  /** The sum of the stored costs of the calls that have one. */
  function StoredCosts(calls: seq<AgentCall>): real {
    if calls == [] then 0.0
    else
      var c := CostOf(calls[|calls| - 1]);
      StoredCosts(calls[..|calls| - 1])
      + (if c.Some? && c.value >= 0.0 && Stored(c.value).Some? then Stored(c.value).value else 0.0)
  }

  lemma {:induction false} TotalIsWhole(calls: seq<AgentCall>)
    ensures Whole(TotalCost(calls))
  {
    if calls == [] {
      assert 0.0 == Dollars(0);
    } else {
      var n := |calls| - 1;
      TotalIsWhole(calls[..n]);
      if CostOf(calls[n]).Some? {
        CostIsWhole(calls[n]);
        WholeAdds(TotalCost(calls[..n]), CostOf(calls[n]).value);
      }
    }
  }

  lemma {:induction false} StoredCostsAddUp(calls: seq<AgentCall>)
    requires TotalCost(calls) < 10000.0
    ensures StoredCosts(calls) == TotalCost(calls)
  {
    if calls != [] {
      var n := |calls| - 1;
      TotalIsWhole(calls[..n]);
      WholeIsStoredExactly(TotalCost(calls[..n]));
      if CostOf(calls[n]).Some? {
        CostIsWhole(calls[n]);
        WholeIsStoredExactly(CostOf(calls[n]).value);
      }
      StoredCostsAddUp(calls[..n]);
    }
  }

  /** The stored total is the sum of the stored costs, to the last decimal, exactly as long as the run
      costs less than ten thousand dollars; beyond that the row is refused. */
  lemma {:induction false} StoredTotalIsExact(calls: seq<AgentCall>)
    ensures TotalCost(calls) >= 0.0
    ensures Stored(TotalCost(calls)).Some? <==> TotalCost(calls) < 10000.0
    ensures TotalCost(calls) < 10000.0 ==> Stored(TotalCost(calls)) == Some(StoredCosts(calls))
  {
    TotalIsWhole(calls);
    WholeIsStoredExactly(TotalCost(calls));
    if TotalCost(calls) < 10000.0 {
      StoredCostsAddUp(calls);
    }
  }

  // ---------------------------------------------------------------- the critic's summed call

  /** The per-file calls the critic's one recorded call stands for. */
  function FileCalls(model: string, outcomes: seq<Critic.FileOutcome>): (calls: seq<AgentCall>)
    ensures |calls| == |outcomes|
  {
    seq(|outcomes|, i requires 0 <= i < |outcomes| =>
      AgentCall(CriticPass, model, outcomes[i].inputTokens, outcomes[i].outputTokens, outcomes[i].cacheReadTokens))
  }

  lemma Distributes(a: nat, b: nat, rate: real)
    ensures (a + b) as real * rate == a as real * rate + b as real * rate
  {
  }

  lemma {:induction false} CostAdds(model: string, a: AgentCall, b: AgentCall, sum: AgentCall)
    requires a.model == b.model == sum.model == model && PriceFor(model).Some?
    requires sum.inputTokens == a.inputTokens + b.inputTokens
    requires sum.outputTokens == a.outputTokens + b.outputTokens
    requires sum.cacheReadTokens == a.cacheReadTokens + b.cacheReadTokens
    ensures CostOf(sum).value == CostOf(a).value + CostOf(b).value
  {
    var p := PriceFor(model).value;
    Distributes(a.inputTokens, b.inputTokens, p.inputPerMtok);
    Distributes(a.outputTokens, b.outputTokens, p.outputPerMtok);
    Distributes(a.cacheReadTokens, b.cacheReadTokens, p.cacheReadPerMtok);
  }

  /** Summing the critic's calls into one row changes no cost. */
  lemma {:induction false} SummedCallCostsTheSame(model: string, outcomes: seq<Critic.FileOutcome>)
    ensures TotalCost([CriticRun.SummedCall(model, outcomes)]) == TotalCost(FileCalls(model, outcomes))
  {
    var call, calls := CriticRun.SummedCall(model, outcomes), FileCalls(model, outcomes);
    assert [call][..0] == [];
    if outcomes != [] && PriceFor(model).Some? {
      var n := |outcomes| - 1;
      SummedCallCostsTheSame(model, outcomes[..n]);
      var before := CriticRun.SummedCall(model, outcomes[..n]);
      assert [before][..0] == [];
      CriticRun.SummedCallIs(model, outcomes[..n]);
      assert calls[..n] == FileCalls(model, outcomes[..n]);
      CostAdds(model, before, calls[n], call);
    } else if outcomes != [] {
      CriticRun.SummedCallIs(model, outcomes);
      UnpricedCostNothing(model, outcomes);
    }
  }

  lemma {:induction false} UnpricedCostNothing(model: string, outcomes: seq<Critic.FileOutcome>)
    requires PriceFor(model).None?
    ensures TotalCost(FileCalls(model, outcomes)) == 0.0
  {
    if outcomes != [] {
      UnpricedCostNothing(model, outcomes[..|outcomes| - 1]);
      assert FileCalls(model, outcomes)[..|outcomes| - 1] == FileCalls(model, outcomes[..|outcomes| - 1]);
    }
  }
}
