/** What one pass may spend: a ledger shared by the lanes that run side by side. Dollar amounts
    are exact reals, and the running total is a 64-bit count of micro-dollars. */
module CostLedger {
  import opened Wrappers

  const U64: nat := 0x1_0000_0000_0000_0000
  const MICRO_USD_PER_USD: real := 1000000.0

  /** A floating-point amount: a real, or one of the values no total can hold. */
  datatype Amount = Finite(usd: real) | NotFinite

  datatype RunCost = Priced(amount: Amount) | Unpriced(harness: string)
  datatype HarnessPricing = Publishes | Silent(harness: string)
  datatype PassSpend = PricedSpend(usd: real) | UnpricedSpend(harness: string)
  datatype Admission = Proceed | Exhausted(spentUsd: real, ceilingUsd: real)

  /** A ceiling is a positive dollar amount: one of zero would admit no run at all. */
  type CostCeiling = usd: real | usd > 0.0 witness 1.0

  function ParseCeiling(amount: Amount): (r: Result<CostCeiling>)
    ensures r.Ok? <==> amount.Finite? && amount.usd > 0.0
    ensures r.Ok? ==> amount == Finite(r.value)
  {
    if amount.NotFinite? || amount.usd <= 0.0 then Err else Ok(amount.usd)
  }

  /** What a run's record says of the price its harness reported. */
  function Price(pricing: HarnessPricing, reported: Option<Amount>): Option<RunCost> {
    match pricing
    case Publishes => (match reported case None => None case Some(a) => Some(Priced(a)))
    case Silent(harness) => Some(Unpriced(harness))
  }

  /** Nearest whole number, halves upwards. */
  function Round(x: real): int {
    (x + 0.5).Floor
  }

  predicate Chargeable(cost: Option<RunCost>) {
    cost.Some? && cost.value.Priced? && cost.value.amount.Finite? && cost.value.amount.usd > 0.0
  }

  /** The micro-dollars one recorded cost adds; the cast to 64 bits saturates. */
  function Charge(cost: Option<RunCost>): (m: nat)
    ensures m < U64
  {
    if !Chargeable(cost) then 0
    else
      var m := Round(cost.value.amount.usd * MICRO_USD_PER_USD);
      if m >= U64 then U64 - 1 else m
  }

  function Usd(micro: nat): real {
    micro as real / MICRO_USD_PER_USD
  }

  /** The counter wraps. */
  function Add(spent: nat, micro: nat): nat {
    (spent + micro) % U64
  }

  predicate Admits(ceiling: Option<CostCeiling>, spent: nat) {
    ceiling.None? || Usd(spent) < ceiling.value
  }

  class Ledger {
    const ceiling: Option<CostCeiling>
    const pricing: HarnessPricing
    var spentMicroUsd: nat

    predicate Valid()
      reads this
    {
      spentMicroUsd < U64 && (ceiling.Some? ==> pricing.Publishes?)
    }

    constructor (ceiling: Option<CostCeiling>, pricing: HarnessPricing)
      requires ceiling.Some? ==> pricing.Publishes?
      ensures Valid() && spentMicroUsd == 0 && this.ceiling == ceiling && this.pricing == pricing
    {
      this.ceiling := ceiling;
      this.pricing := pricing;
      spentMicroUsd := 0;
    }

    method Record(cost: Option<RunCost>)
      requires Valid()
      modifies this
      ensures Valid() && spentMicroUsd == Add(old(spentMicroUsd), Charge(cost))
    {
      if cost.None? || cost.value.Unpriced? {
        return;
      }
      var usd := cost.value.amount;
      if usd.NotFinite? || usd.usd <= 0.0 {
        return;
      }
      spentMicroUsd := (spentMicroUsd + Charge(cost)) % U64;
    }

    method Admit() returns (r: Admission)
      requires Valid()
      ensures r.Proceed? <==> Admits(ceiling, spentMicroUsd)
      ensures r.Exhausted? ==> r.spentUsd == Usd(spentMicroUsd) && Some(r.ceilingUsd) == ceiling && r.spentUsd >= r.ceilingUsd
    {
      if ceiling.None? {
        return Proceed;
      }
      var spent := Usd(spentMicroUsd);
      r := if spent >= ceiling.value then Exhausted(spent, ceiling.value) else Proceed;
    }

    /** Strictly past the ceiling, which a pass that lands on it is not. */
    method Overspent() returns (r: bool)
      requires Valid()
      ensures r ==> !Admits(ceiling, spentMicroUsd)
      ensures !r && !Admits(ceiling, spentMicroUsd) ==> Some(Usd(spentMicroUsd)) == ceiling
      ensures Admits(ceiling, spentMicroUsd) ==> !r
    {
      r := ceiling.Some? && Usd(spentMicroUsd) > ceiling.value;
    }

    /** A ledger with a ceiling always has a total to state. */
    method Spend() returns (r: PassSpend)
      requires Valid()
      ensures r.PricedSpend? <==> pricing.Publishes?
      ensures r.PricedSpend? ==> r.usd == Usd(spentMicroUsd)
      ensures ceiling.Some? ==> r.PricedSpend?
    {
      r := match pricing
        case Publishes => PricedSpend(Usd(spentMicroUsd))
        case Silent(harness) => UnpricedSpend(harness);
    }
  }

  /** There is no ledger with a ceiling where the harness never states a price. */
  method Open(ceiling: Option<CostCeiling>, pricing: HarnessPricing) returns (r: Result<Ledger>)
    ensures r.Err? <==> ceiling.Some? && pricing.Silent?
    ensures r.Ok? ==> fresh(r.value) && r.value.Valid() && r.value.spentMicroUsd == 0
    ensures r.Ok? ==> r.value.ceiling == ceiling && r.value.pricing == pricing
  {
    if ceiling.Some? && pricing.Silent? {
      return Err;
    }
    var ledger := new Ledger(ceiling, pricing);
    r := Ok(ledger);
  }

  // ----- totals of recorded costs -----

  function TotalMicro(costs: seq<Option<RunCost>>): nat {
    if costs == [] then 0 else TotalMicro(costs[..|costs| - 1]) + Charge(costs[|costs| - 1])
  }

  function TotalUsd(costs: seq<Option<RunCost>>): real {
    if costs == [] then 0.0
    else
      var last := costs[|costs| - 1];
      TotalUsd(costs[..|costs| - 1]) + if Chargeable(last) then last.value.amount.usd else 0.0
  }

  function CountCharged(costs: seq<Option<RunCost>>): nat {
    if costs == [] then 0 else CountCharged(costs[..|costs| - 1]) + if Chargeable(costs[|costs| - 1]) then 1 else 0
  }

  lemma ChargeIsClose(cost: Option<RunCost>)
    requires Chargeable(cost) && cost.value.amount.usd * MICRO_USD_PER_USD < U64 as real - 1.0
    ensures var exact := cost.value.amount.usd * MICRO_USD_PER_USD;
      exact - 0.5 <= Charge(cost) as real <= exact + 0.5
  {}

  /** The total is within half a micro-dollar per priced run of the exact sum. */
  lemma {:induction false} TotalIsClose(costs: seq<Option<RunCost>>)
    requires forall i :: 0 <= i < |costs| && Chargeable(costs[i]) ==>
               costs[i].value.amount.usd * MICRO_USD_PER_USD < U64 as real - 1.0
    ensures var exact, n := TotalUsd(costs) * MICRO_USD_PER_USD, CountCharged(costs) as real;
      exact - n / 2.0 <= TotalMicro(costs) as real <= exact + n / 2.0
  {
    if costs == [] {
    } else {
      var rest, last := costs[..|costs| - 1], costs[|costs| - 1];
      TotalIsClose(rest);
      if Chargeable(last) { ChargeIsClose(last); }
    }
  }

  /** Whatever a silent harness is asked to run, nothing is ever charged, so a ceiling over it would
      never be reached. */
  lemma {:induction false} SilentHarnessNeverSpends(
    harness: string, reported: seq<Option<Amount>>, costs: seq<Option<RunCost>>)
    requires |costs| == |reported|
    requires forall i :: 0 <= i < |costs| ==> costs[i] == Price(Silent(harness), reported[i])
    ensures TotalMicro(costs) == 0
  {
    if costs == [] {
    } else {
      var last := |costs| - 1;
      SilentHarnessNeverSpends(harness, reported[..last], costs[..last]);
      assert costs[last] == Some(Unpriced(harness));
    }
  }

  // ----- a harness that publishes -----

  /** Over a publishing harness every reported price is charged in millionths of a dollar to the nearest
      one, halves upwards; a price of nothing, and no price, charge nothing. */
  lemma PublishedPriceIsCharged(n: nat, usd: real)
    requires n < U64
    ensures n as real - 0.5 <= usd * 1000000.0 < n as real + 0.5 ==>
      Charge(Price(Publishes, Some(Finite(usd)))) == if usd > 0.0 then n else 0
    ensures Charge(Price(Publishes, None)) == 0 == Charge(Price(Publishes, Some(NotFinite)))
  {
    if usd > 0.0 && n as real - 0.5 <= usd * 1000000.0 < n as real + 0.5 {
      assert Chargeable(Price(Publishes, Some(Finite(usd))));
      assert Round(usd * MICRO_USD_PER_USD) == n;
    }
  }

  /** A dollar is a million units, so a ceiling in dollars is met by that many charges of one unit. */
  lemma ADollarIsAMillion(n: nat, ceiling: CostCeiling)
    ensures Admits(Some(ceiling), n) <==> n as real < 1000000.0 * ceiling
  {
    assert Usd(n) * 1000000.0 == n as real;
  }
}
