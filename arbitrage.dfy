/** Cross-market arbitrage arithmetic (arbitrage_calculator.py).
    Prices are cents on the 0-100 scale and may be fractional, as the
    source's float parameters are; a binary contract pays 100 cents to the
    side that wins. Arithmetic on reals is exact. */
module Arbitrage {

  import opened Wrappers

  /** One side of a binary contract. */
  datatype Leg = Yes | No

  /** How the real-world event settles: it happens (Yes wins) or it does not. */
  datatype Outcome = Happens | DoesNotHappen

  /** The `bet_on` pair, the `total_investment` and the `profit_per_contract`
      of one scenario. */
  datatype Scenario = Scenario(betOn: (Leg, Leg), totalInvestment: real, profitPerContract: real)

  /** The dictionary the calculator returns: the flag, the message that only
      the no-arbitrage branch carries, and both scenarios. */
  datatype ArbitrageResult = ArbitrageResult(
    arbitrage: bool,
    message: Option<string>,
    scenario1: Scenario,
    scenario2: Scenario)

  const NoArbitrageMessage := "No arbitrage opportunity available in either scenario."

  /** What a contract bought on `leg` pays out, in cents, when the event settles as `o`. */
  function Payout(leg: Leg, o: Outcome): (c: real)
    ensures c == 0.0 || c == 100.0
  {
    if (leg == Yes) == (o == Happens) then 100.0 else 0.0
  }

  /** The net gain of holding `legs` (one contract per market, both markets on
      the same event) bought for `total` cents, once the event settles as `o`. */
  function NetGain(legs: (Leg, Leg), total: real, o: Outcome): real
  {
    Payout(legs.0, o) + Payout(legs.1, o) - total
  }

  /** The gain that a pair of legs guarantees, whatever the outcome. */
  function GuaranteedGain(legs: (Leg, Leg), total: real): real
  {
    var a := NetGain(legs, total, Happens);
    var b := NetGain(legs, total, DoesNotHappen);
    if a <= b then a else b
  }

  /** Profit per contract of a scenario with the given total: the guaranteed
      gain when there is one, zero otherwise. */
  function ScenarioProfit(total: real): (p: real)
    ensures p >= 0.0
    ensures p > 0.0 <==> total < 100.0
  {
    if total < 100.0 then 100.0 - total else 0.0
  }

  function MakeScenario(legs: (Leg, Leg), total: real): (s: Scenario)
    ensures s.betOn == legs && s.totalInvestment == total
    ensures s.profitPerContract >= 0.0
  {
    Scenario(legs, total, ScenarioProfit(total))
  }

  /** calculate_cross_market_arbitrage: Scenario 1 is Yes on market 1 and No
      on market 2, Scenario 2 is No on market 1 and Yes on market 2. Both are
      always reported; the flag is set when either makes a profit. */
  function CalculateCrossMarketArbitrage(
    priceYesMarket1: real, priceNoMarket2: real, priceNoMarket1: real, priceYesMarket2: real): (r: ArbitrageResult)
    ensures r.scenario1 == MakeScenario((Yes, No), priceYesMarket1 + priceNoMarket2)
    ensures r.scenario2 == MakeScenario((No, Yes), priceNoMarket1 + priceYesMarket2)
    ensures r.scenario1.totalInvestment == priceYesMarket1 + priceNoMarket2
    ensures r.scenario2.totalInvestment == priceNoMarket1 + priceYesMarket2
    ensures r.scenario1.profitPerContract >= 0.0 && r.scenario2.profitPerContract >= 0.0
    ensures r.arbitrage <==> r.scenario1.totalInvestment < 100.0 || r.scenario2.totalInvestment < 100.0
    ensures r.arbitrage <==> r.scenario1.profitPerContract > 0.0 || r.scenario2.profitPerContract > 0.0
    ensures r.message == if r.arbitrage then None else Some(NoArbitrageMessage)
  {
    var s1 := MakeScenario((Yes, No), priceYesMarket1 + priceNoMarket2);
    var s2 := MakeScenario((No, Yes), priceNoMarket1 + priceYesMarket2);
    if s1.profitPerContract > 0.0 || s2.profitPerContract > 0.0 then
      ArbitrageResult(true, None, s1, s2)
    else
      ArbitrageResult(false, Some(NoArbitrageMessage), s1, s2)
  }

  /** Opposite legs on the same event always pay exactly 100 between them. */
  lemma OppositeLegsPayHundred(legs: (Leg, Leg), o: Outcome)
    requires legs.0 != legs.1
    ensures Payout(legs.0, o) + Payout(legs.1, o) == 100.0
  {
  }

  /** A scenario's profit is the gain it guarantees whatever the outcome when
      that gain is positive, and zero otherwise: the calculator's arithmetic
      agrees with the payout model of a pair of opposite bets. */
  lemma {:induction false} ProfitIsGuaranteedGain(legs: (Leg, Leg), total: real)
    requires legs.0 != legs.1
    ensures MakeScenario(legs, total).profitPerContract
         == (if GuaranteedGain(legs, total) > 0.0 then GuaranteedGain(legs, total) else 0.0)
    ensures MakeScenario(legs, total).profitPerContract > 0.0
        <==> forall o :: NetGain(legs, total, o) > 0.0
  {
    OppositeLegsPayHundred(legs, Happens);
    OppositeLegsPayHundred(legs, DoesNotHappen);
    assert GuaranteedGain(legs, total) == 100.0 - total;
    forall o ensures NetGain(legs, total, o) == 100.0 - total {
      OppositeLegsPayHundred(legs, o);
    }
  }

  /** A total of exactly 100 cents is not an opportunity. */
  lemma BoundaryHundredIsNoProfit(yes1: real, no2: real, no1: real, yes2: real)
    requires yes1 + no2 == 100.0 && no1 + yes2 >= 100.0
    ensures CalculateCrossMarketArbitrage(yes1, no2, no1, yes2).scenario1.profitPerContract == 0.0
    ensures !CalculateCrossMarketArbitrage(yes1, no2, no1, yes2).arbitrage
  {
  }

  /** A total just under 100, however little, is an opportunity: 99.99 cents
      yields a profit of 0.01 cent. */
  lemma JustUnderHundredIsProfit(yes1: real, no2: real, no1: real, yes2: real)
    requires yes1 + no2 == 99.99
    ensures CalculateCrossMarketArbitrage(yes1, no2, no1, yes2).scenario1.profitPerContract == 0.01
    ensures CalculateCrossMarketArbitrage(yes1, no2, no1, yes2).arbitrage
  {
  }

  /** Swapping market 1 and market 2 exchanges the two scenarios' totals and
      profits and leaves the flag as it was. */
  lemma SwapMarketsExchangesScenarios(yes1: real, no2: real, no1: real, yes2: real)
    ensures var r := CalculateCrossMarketArbitrage(yes1, no2, no1, yes2);
            var q := CalculateCrossMarketArbitrage(yes2, no1, no2, yes1);
            && q.scenario1.totalInvestment == r.scenario2.totalInvestment
            && q.scenario2.totalInvestment == r.scenario1.totalInvestment
            && q.scenario1.profitPerContract == r.scenario2.profitPerContract
            && q.scenario2.profitPerContract == r.scenario1.profitPerContract
            && q.arbitrage == r.arbitrage
            && q.message == r.message
  {
  }

  /** The worked example at the foot of arbitrage_calculator.py. */
  lemma WorkedExample()
    ensures var r := CalculateCrossMarketArbitrage(72.0, 25.0, 35.0, 30.0);
            && r.arbitrage
            && r.scenario1.totalInvestment == 97.0 && r.scenario1.profitPerContract == 3.0
            && r.scenario2.totalInvestment == 65.0 && r.scenario2.profitPerContract == 35.0
  {
  }
}
