/** The readings one arm's runs report, and what they cost together. Costs are exact reals. */
module ArmTimings {
  import opened Wrappers

  /** A run's cost as a timing file states it: a price there is always finite. */
  datatype ReadCost = Priced(usd: real) | Unpriced(harness: string)

  datatype BucketCost = Whole(total: real) | Partial(part: real, runs: nat) | Refused(harness: string)

  datatype TimingFile = TimingFile(durationMs: Option<nat>, totalTokens: Option<nat>, inputTokens: Option<nat>,
                                   outputTokens: Option<nat>, cost: Option<ReadCost>, costUsd: Option<real>)

  /** The cost a timing file states, in its own field or in the one older releases wrote. */
  function CostOf(f: TimingFile): Option<ReadCost> {
    if f.cost.Some? then f.cost else if f.costUsd.Some? then Some(Priced(f.costUsd.value)) else None
  }

  function Listed<T>(o: Option<T>): seq<T> {
    match o case None => [] case Some(v) => [v]
  }

  /** Every reading of an arm, in the order its runs were recorded. */
  datatype Readings = Readings(runs: nat, missing: nat, durations: seq<nat>, input: seq<nat>, output: seq<nat>,
                               total: seq<nat>, costs: seq<ReadCost>)

  const NO_READINGS := Readings(0, 0, [], [], [], [], [])

  function With(r: Readings, timing: Option<TimingFile>): Readings {
    match timing
    case None => r.(runs := r.runs + 1, missing := r.missing + 1)
    case Some(f) =>
      Readings(r.runs + 1, r.missing, r.durations + Listed(f.durationMs), r.input + Listed(f.inputTokens),
               r.output + Listed(f.outputTokens), r.total + Listed(f.totalTokens), r.costs + Listed(CostOf(f)))
  }

  function AllOf(timings: seq<Option<TimingFile>>): Readings {
    if timings == [] then NO_READINGS else With(AllOf(timings[..|timings| - 1]), timings[|timings| - 1])
  }

  class ArmTiming {
    var runs: nat
    var missingTiming: nat
    var durationMs: seq<nat>
    var inputTokens: seq<nat>
    var outputTokens: seq<nat>
    var totalTokens: seq<nat>
    var costs: seq<ReadCost>

    function Read(): Readings
      reads this
    {
      Readings(runs, missingTiming, durationMs, inputTokens, outputTokens, totalTokens, costs)
    }

    constructor ()
      ensures Read() == NO_READINGS
    {
      runs, missingTiming := 0, 0;
      durationMs, inputTokens, outputTokens, totalTokens, costs := [], [], [], [], [];
    }

    method RecordRun(timing: Option<TimingFile>)
      modifies this
      ensures Read() == With(old(Read()), timing)
    {
      runs := runs + 1;
      if timing.None? {
        missingTiming := missingTiming + 1;
        return;
      }
      durationMs := durationMs + Listed(timing.value.durationMs);
      inputTokens := inputTokens + Listed(timing.value.inputTokens);
      outputTokens := outputTokens + Listed(timing.value.outputTokens);
      totalTokens := totalTokens + Listed(timing.value.totalTokens);
      costs := costs + Listed(CostOf(timing.value));
    }

    method CountUnreadRuns(count: nat)
      modifies this
      ensures Read() == old(Read()).(runs := old(runs) + count)
    {
      runs := runs + count;
    }
  }

  function Sum(values: seq<nat>): nat {
    if values == [] then 0 else Sum(values[..|values| - 1]) + values[|values| - 1]
  }

  lemma SumOfMore(values: seq<nat>, o: Option<nat>)
    ensures Sum(values + Listed(o)) == Sum(values) + match o case None => 0 case Some(v) => v
  {
    match o
    case None => assert values + Listed(o) == values;
    case Some(v) => assert (values + [v])[..|values|] == values;
  }

  // ----- what a bucket cost -----

  function PricedOnly(costs: seq<ReadCost>): seq<real> {
    if costs == [] then []
    else PricedOnly(costs[..|costs| - 1]) + if costs[|costs| - 1].Priced? then [costs[|costs| - 1].usd] else []
  }

  function SumUsd(usd: seq<real>): real {
    if usd == [] then 0.0 else SumUsd(usd[..|usd| - 1]) + usd[|usd| - 1]
  }

  function FirstUnpriced(costs: seq<ReadCost>): Option<string> {
    if costs == [] then None
    else if costs[0].Unpriced? then Some(costs[0].harness)
    else FirstUnpriced(costs[1..])
  }

  function CostOfBucket(costs: seq<ReadCost>, runCount: nat): Option<BucketCost> {
    var refused := FirstUnpriced(costs);
    if refused.Some? then Some(Refused(refused.value))
    else
      var priced := PricedOnly(costs);
      if priced == [] then None
      else if |priced| == runCount then Some(Whole(SumUsd(priced)))
      else Some(Partial(SumUsd(priced), |priced|))
  }

  predicate IsPriced(timing: Option<TimingFile>) {
    timing.Some? && CostOf(timing.value).Some? && CostOf(timing.value).value.Priced?
  }

  function UsdOf(timing: Option<TimingFile>): real {
    if IsPriced(timing) then CostOf(timing.value).value.usd else 0.0
  }

  function TrueCost(timings: seq<Option<TimingFile>>): real {
    if timings == [] then 0.0 else TrueCost(timings[..|timings| - 1]) + UsdOf(timings[|timings| - 1])
  }

  predicate EveryRunPriced(timings: seq<Option<TimingFile>>) {
    forall i :: 0 <= i < |timings| ==> IsPriced(timings[i])
  }

  predicate IsRefused(timing: Option<TimingFile>) {
    timing.Some? && CostOf(timing.value).Some? && CostOf(timing.value).value.Unpriced?
  }

  predicate SomeRunRefused(timings: seq<Option<TimingFile>>) {
    exists i :: 0 <= i < |timings| && IsRefused(timings[i])
  }

  predicate HasUnpriced(costs: seq<ReadCost>) {
    exists i :: 0 <= i < |costs| && costs[i].Unpriced?
  }

  lemma {:induction false} FindsTheUnpriced(costs: seq<ReadCost>)
    ensures FirstUnpriced(costs).Some? <==> HasUnpriced(costs)
  {
    if costs == [] {
    } else {
      FindsTheUnpriced(costs[1..]);
      if FirstUnpriced(costs[1..]).Some? {
        var i :| 0 <= i < |costs[1..]| && costs[1..][i].Unpriced?;
        assert costs[i + 1].Unpriced?;
      }
      if i :| 0 <= i < |costs| && costs[i].Unpriced? {
        assert i > 0 ==> costs[1..][i - 1].Unpriced?;
      }
    }
  }

  /** What the recorded costs of an arm say about its runs. */
  ghost predicate Accounts(costs: seq<ReadCost>, timings: seq<Option<TimingFile>>) {
    && |PricedOnly(costs)| <= |timings|
    && SumUsd(PricedOnly(costs)) == TrueCost(timings)
    && (|PricedOnly(costs)| == |timings| <==> EveryRunPriced(timings))
    && (HasUnpriced(costs) <==> SomeRunRefused(timings))
  }

  lemma AccountsStep(before: seq<ReadCost>, init: seq<Option<TimingFile>>, last: Option<TimingFile>)
    requires Accounts(before, init)
    ensures Accounts(before + if last.None? then [] else Listed(CostOf(last.value)), init + [last])
  {
    hide PricedOnly, SumUsd, TrueCost, EveryRunPriced, SomeRunRefused, HasUnpriced, CostOf;
    var cost := if last.None? then None else CostOf(last.value);
    PricedOfMore(before, cost);
    EveryPricedStep(init, last);
    TrueCostStep(init, last);
    RefusedStep(init, last, before, Listed(cost));
  }

  lemma TrueCostStep(init: seq<Option<TimingFile>>, last: Option<TimingFile>)
    ensures TrueCost(init + [last]) == TrueCost(init) + UsdOf(last)
  {}

  lemma {:induction false} CostsOfAnArm(timings: seq<Option<TimingFile>>)
    ensures AllOf(timings).runs == |timings| && Accounts(AllOf(timings).costs, timings)
  {
    if timings == [] {
      NothingRecorded();
    } else {
      hide Accounts, CostOf;
      var init, last := timings[..|timings| - 1], timings[|timings| - 1];
      CostsOfAnArm(init);
      assert timings == init + [last];
      AccountsStep(AllOf(init).costs, init, last);
      if last.None? { assert AllOf(init).costs + [] == AllOf(init).costs; }
    }
  }

  lemma NothingRecorded()
    ensures AllOf([]).runs == 0 && Accounts(AllOf([]).costs, [])
  {}

  lemma PricedOfMore(costs: seq<ReadCost>, o: Option<ReadCost>)
    ensures PricedOnly(costs + Listed(o)) == PricedOnly(costs) + if o.Some? && o.value.Priced? then [o.value.usd] else []
    ensures SumUsd(PricedOnly(costs + Listed(o))) ==
            SumUsd(PricedOnly(costs)) + if o.Some? && o.value.Priced? then o.value.usd else 0.0
  {
    match o
    case None =>
      assert costs + Listed(o) == costs;
      assert PricedOnly(costs) + [] == PricedOnly(costs);
    case Some(c) =>
      assert (costs + [c])[..|costs|] == costs;
      if c.Priced? {
        assert (PricedOnly(costs) + [c.usd])[..|PricedOnly(costs)|] == PricedOnly(costs);
      } else {
        assert PricedOnly(costs) + [] == PricedOnly(costs);
      }
  }

  lemma EveryPricedStep(init: seq<Option<TimingFile>>, last: Option<TimingFile>)
    ensures EveryRunPriced(init + [last]) <==> EveryRunPriced(init) && IsPriced(last)
  {
    var all := init + [last];
    assert all[|init|] == last;
    assert forall i :: 0 <= i < |init| ==> all[i] == init[i];
  }

  lemma RefusedStep(init: seq<Option<TimingFile>>, last: Option<TimingFile>, before: seq<ReadCost>, added: seq<ReadCost>)
    requires added == if last.None? then [] else Listed(CostOf(last.value))
    requires HasUnpriced(before) <==> SomeRunRefused(init)
    ensures HasUnpriced(before + added) <==> SomeRunRefused(init + [last])
  {
    hide CostOf;
    var costs, all := before + added, init + [last];
    assert added != [] ==> costs[|before|] == added[0];
    assert forall i :: 0 <= i < |before| ==> costs[i] == before[i];
    assert forall i :: 0 <= i < |init| ==> all[i] == init[i];
    assert all[|init|] == last;
    assert HasUnpriced(costs) <==> HasUnpriced(before) || (added != [] && added[0].Unpriced?);
  }

  /** A harness that refuses to price one run leaves the whole arm without a total. Otherwise the
      total covers the arm exactly when every run was read and priced, and then it is the sum of
      what the runs cost. */
  lemma CostIsWholeIffEveryRunPriced(timings: seq<Option<TimingFile>>, unread: nat)
    ensures
      var cost := CostOfBucket(AllOf(timings).costs, |timings| + unread);
      && (SomeRunRefused(timings) <==> cost.Some? && cost.value.Refused?)
      && (cost.Some? && cost.value.Whole? <==> timings != [] && unread == 0 && EveryRunPriced(timings))
      && (cost.Some? && cost.value.Whole? ==> cost.value.total == TrueCost(timings))
      && (cost.Some? && cost.value.Partial? ==> cost.value.part == TrueCost(timings) && 0 < cost.value.runs < |timings| + unread)
  {
    hide AllOf, TrueCost, PricedOnly, SumUsd, FirstUnpriced;
    CostsOfAnArm(timings);
    FindsTheUnpriced(AllOf(timings).costs);
  }

  /** A price reads the same from its own field and from the one older releases wrote, and its own field
      is the one that counts. */
  lemma StatedCostCounts(f: TimingFile, usd: real, older: Option<real>)
    ensures CostOf(f.(cost := Some(Priced(usd)), costUsd := older)) == Some(Priced(usd))
    ensures CostOf(f.(cost := None, costUsd := Some(usd))) == Some(Priced(usd))
    ensures CostOf(f.(cost := None, costUsd := None)) == None
  {}
}
