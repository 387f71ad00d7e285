/** A report's runs reduced to each scenario's numbers, for the whole report and for its parts. */
module Benchmark {
  import opened Wrappers
  import opened ArmTimings
  import opened Scenarios

  /** Whether failed runs are counted apart, left out, or scored as zero. */
  datatype FailedRunsMode = Bucket | Exclude | Zero

  datatype Disposition = Completed | Failed | Skipped | Excluded

  datatype Assertion = Assertion(passed: bool, unsupported: bool, excluded: bool)

  datatype Summary = Summary(passed: nat, failed: nat, total: nat)

  datatype Grading = Grading(results: seq<Assertion>, summary: Option<Summary>)

  datatype Sample = Sample(grading: Option<Grading>, timing: Option<TimingFile>)

  datatype Run = Run(scenario: ScenarioKind, status: string, sample: Sample)

  function ClassifyRun(status: string, mode: FailedRunsMode): Disposition {
    if status == "skipped" then Skipped
    else if status == "failed" || status == "timeout" || status == "budget_exhausted" then
      if mode == Exclude then Excluded else Failed
    else Completed
  }

  // ----- what grading says -----

  datatype PassFail = PassFail(passed: nat, failed: nat) {
    function Total(): nat {
      passed + failed
    }

    function PassRate(): real {
      if Total() == 0 then 0.0 else passed as real / Total() as real
    }
  }

  function Scored(results: seq<Assertion>): seq<Assertion> {
    if results == [] then []
    else (if !results[0].unsupported && !results[0].excluded then [results[0]] else []) + Scored(results[1..])
  }

  function CountPassed(results: seq<Assertion>): (n: nat)
    ensures n <= |results|
  {
    if results == [] then 0 else (if results[0].passed then 1 else 0) + CountPassed(results[1..])
  }

  function GradingSummary(g: Grading): PassFail {
    if g.summary.Some? && g.summary.value.total > 0 then PassFail(g.summary.value.passed, g.summary.value.failed)
    else
      var scored := Scored(g.results);
      PassFail(CountPassed(scored), |scored| - CountPassed(scored))
  }

  // ----- a scenario's numbers -----

  datatype Tokens = Tokens(total: Option<nat>, input: Option<nat>, output: Option<nat>, cost: Option<BucketCost>)

  datatype CompletedBucket = CompletedBucket(runCount: nat, assertions: PassFail, runs: PassFail, durationMs: nat,
                                             tokens: Tokens, missingGrading: nat, missingTiming: nat)

  datatype FailedBucket = FailedBucket(runCount: nat, durationMs: nat, tokens: Tokens, missingTiming: nat)

  datatype Measured = Measured(completed: CompletedBucket, failed: Option<FailedBucket>, skipped: nat)

  function SumOrNone(values: seq<nat>): Option<nat> {
    if values == [] then None else Some(Sum(values))
  }

  function TokenStats(r: Readings): Tokens {
    Tokens(SumOrNone(r.total), SumOrNone(r.input), SumOrNone(r.output), CostOfBucket(r.costs, r.runs))
  }

  /** Everything a scenario counts, as plain numbers that add up. */
  datatype Tally = Tally(
    runs: nat, assertionsPassed: nat, assertionsFailed: nat, runsPassed: nat, runsFailed: nat, durationMs: nat,
    totalTokens: nat, inputTokens: nat, outputTokens: nat, missingGrading: nat, missingTiming: nat,
    failedRuns: nat, failedDurationMs: nat, failedTotalTokens: nat, failedInputTokens: nat, failedOutputTokens: nat,
    failedMissingTiming: nat, skipped: nat)

  const NOTHING := Tally(0, 0, 0, 0, 0, 0, 0, 0, 0, 0, 0, 0, 0, 0, 0, 0, 0, 0)

  function Add(a: Tally, b: Tally): Tally {
    Tally(a.runs + b.runs, a.assertionsPassed + b.assertionsPassed, a.assertionsFailed + b.assertionsFailed,
          a.runsPassed + b.runsPassed, a.runsFailed + b.runsFailed, a.durationMs + b.durationMs,
          a.totalTokens + b.totalTokens, a.inputTokens + b.inputTokens, a.outputTokens + b.outputTokens,
          a.missingGrading + b.missingGrading, a.missingTiming + b.missingTiming, a.failedRuns + b.failedRuns,
          a.failedDurationMs + b.failedDurationMs, a.failedTotalTokens + b.failedTotalTokens,
          a.failedInputTokens + b.failedInputTokens, a.failedOutputTokens + b.failedOutputTokens,
          a.failedMissingTiming + b.failedMissingTiming, a.skipped + b.skipped)
  }

  function Or0(o: Option<nat>): nat {
    match o case None => 0 case Some(v) => v
  }

  function Numbers(m: Measured): Tally {
    var c, t := m.completed, m.completed.tokens;
    var f := if m.failed.Some? then m.failed.value else FailedBucket(0, 0, Tokens(None, None, None, None), 0);
    Tally(c.runCount, c.assertions.passed, c.assertions.failed, c.runs.passed, c.runs.failed, c.durationMs,
          Or0(t.total), Or0(t.input), Or0(t.output), c.missingGrading, c.missingTiming,
          f.runCount, f.durationMs, Or0(f.tokens.total), Or0(f.tokens.input), Or0(f.tokens.output), f.missingTiming, m.skipped)
  }

  /** What one completed run adds. */
  function OfCompleted(s: Sample): Tally {
    var g := if s.grading.Some? then GradingSummary(s.grading.value) else PassFail(0, 0);
    var timed := NOTHING.(
      runs := 1, assertionsPassed := g.passed, assertionsFailed := g.failed,
      runsPassed := if g.failed == 0 && g.Total() > 0 then 1 else 0,
      runsFailed := if g.failed > 0 then 1 else 0,
      missingGrading := if s.grading.None? then 1 else 0,
      missingTiming := if s.timing.None? then 1 else 0);
    if s.timing.None? then timed
    else
      timed.(durationMs := Or0(s.timing.value.durationMs), totalTokens := Or0(s.timing.value.totalTokens),
             inputTokens := Or0(s.timing.value.inputTokens), outputTokens := Or0(s.timing.value.outputTokens))
  }

  /** What one failed run adds to its own bucket. */
  function OfFailed(s: Sample): Tally {
    if s.timing.None? then NOTHING.(failedRuns := 1, failedMissingTiming := 1)
    else
      var f := s.timing.value;
      NOTHING.(failedRuns := 1, failedDurationMs := Or0(f.durationMs), failedTotalTokens := Or0(f.totalTokens),
               failedInputTokens := Or0(f.inputTokens), failedOutputTokens := Or0(f.outputTokens))
  }

  /** What one run adds to the numbers of a scenario. */
  function Contribution(r: Run, s: ScenarioKind, mode: FailedRunsMode): Tally {
    if r.scenario != s then NOTHING
    else
      match ClassifyRun(r.status, mode)
      case Completed => OfCompleted(r.sample)
      case Failed => if mode == Zero then NOTHING.(runs := 1, runsFailed := 1) else OfFailed(r.sample)
      case Skipped => NOTHING.(skipped := 1)
      case Excluded => NOTHING
  }

  function Total(runs: seq<Run>, s: ScenarioKind, mode: FailedRunsMode): Tally {
    if runs == [] then NOTHING else Add(Total(runs[..|runs| - 1], s, mode), Contribution(runs[|runs| - 1], s, mode))
  }

  // ----- accumulating -----

  datatype Accumulator = Accumulator(completed: seq<Sample>, failed: seq<Sample>, skipped: nat)

  const NO_RUNS := Accumulator([], [], 0)

  function CompletedTotal(samples: seq<Sample>): Tally {
    if samples == [] then NOTHING else Add(CompletedTotal(samples[..|samples| - 1]), OfCompleted(samples[|samples| - 1]))
  }

  function FailedTotal(samples: seq<Sample>): Tally {
    if samples == [] then NOTHING else Add(FailedTotal(samples[..|samples| - 1]), OfFailed(samples[|samples| - 1]))
  }

  /** What an accumulator's runs add up to once the mode has been applied. */
  function Shape(a: Accumulator, mode: FailedRunsMode): Tally {
    var failed := match mode
                  case Zero => NOTHING.(runs := |a.failed|, runsFailed := |a.failed|)
                  case Bucket => FailedTotal(a.failed)
                  case Exclude => NOTHING;
    Add(Add(CompletedTotal(a.completed), failed), NOTHING.(skipped := a.skipped))
  }

  /** What the loop of `MeasureScenarios` does to one accumulator. */
  function Accumulated(a: Accumulator, r: Run, mode: FailedRunsMode): Accumulator {
    match ClassifyRun(r.status, mode)
    case Completed => a.(completed := a.completed + [r.sample])
    case Failed => a.(failed := a.failed + [r.sample])
    case Skipped => a.(skipped := a.skipped + 1)
    case Excluded => a
  }

  lemma CompletedStep(samples: seq<Sample>, s: Sample)
    ensures CompletedTotal(samples + [s]) == Add(CompletedTotal(samples), OfCompleted(s))
  {
    hide OfCompleted, Add;
    assert (samples + [s])[..|samples|] == samples;
  }

  lemma FailedStep(samples: seq<Sample>, s: Sample)
    ensures FailedTotal(samples + [s]) == Add(FailedTotal(samples), OfFailed(s))
  {
    hide OfFailed, Add;
    assert (samples + [s])[..|samples|] == samples;
  }

  lemma AddShuffles(c: Tally, f: Tally, s: Tally, x: Tally)
    ensures Add(Add(Add(c, x), f), s) == Add(Add(Add(c, f), s), x)
    ensures Add(Add(c, Add(f, x)), s) == Add(Add(Add(c, f), s), x)
    ensures Add(Add(c, f), Add(s, x)) == Add(Add(Add(c, f), s), x)
  {}

  lemma CountsAdd(n: nat)
    ensures Add(NOTHING.(runs := n, runsFailed := n), NOTHING.(runs := 1, runsFailed := 1)) ==
            NOTHING.(runs := n + 1, runsFailed := n + 1)
    ensures Add(NOTHING.(skipped := n), NOTHING.(skipped := 1)) == NOTHING.(skipped := n + 1)
  {}

  lemma FailuresAreKept(status: string, mode: FailedRunsMode)
    ensures ClassifyRun(status, mode) == Failed ==> mode != Exclude
  {}

  lemma ShapeStep(a: Accumulator, r: Run, mode: FailedRunsMode)
    ensures Shape(Accumulated(a, r, mode), mode) == Add(Shape(a, mode), Contribution(r, r.scenario, mode))
  {
    hide CompletedTotal, FailedTotal, OfCompleted, OfFailed, ClassifyRun, Add;
    FailuresAreKept(r.status, mode);
    var c, s := CompletedTotal(a.completed), NOTHING.(skipped := a.skipped);
    var f := match mode
             case Zero => NOTHING.(runs := |a.failed|, runsFailed := |a.failed|)
             case Bucket => FailedTotal(a.failed)
             case Exclude => NOTHING;
    match ClassifyRun(r.status, mode)
    case Completed =>
      CompletedStep(a.completed, r.sample);
      AddShuffles(c, f, s, OfCompleted(r.sample));
    case Failed =>
      FailedStep(a.failed, r.sample);
      CountsAdd(|a.failed|);
      AddShuffles(c, f, s, if mode == Zero then NOTHING.(runs := 1, runsFailed := 1) else OfFailed(r.sample));
    case Skipped =>
      CountsAdd(a.skipped);
      AddShuffles(c, f, s, NOTHING.(skipped := 1));
    case Excluded =>
      AddNothing(Shape(a, mode));
  }

  lemma AddNothing(t: Tally)
    ensures Add(t, NOTHING) == t
  {}

  // ----- the readings of the samples -----

  function Timings(samples: seq<Sample>): seq<Option<TimingFile>> {
    if samples == [] then [] else Timings(samples[..|samples| - 1]) + [samples[|samples| - 1].timing]
  }

  /** The readings of completed runs say what the tally says. */
  ghost predicate Agrees(r: Readings, t: Tally) {
    && r.runs == t.runs && r.missing == t.missingTiming && Sum(r.durations) == t.durationMs
    && Sum(r.total) == t.totalTokens && Sum(r.input) == t.inputTokens && Sum(r.output) == t.outputTokens
  }

  lemma TimedPart(s: Sample)
    ensures var t := OfCompleted(s);
      if s.timing.None? then
        t.runs == t.missingTiming == 1 && t.durationMs == t.totalTokens == t.inputTokens == t.outputTokens == 0
      else
        var f := s.timing.value;
        && t.runs == 1 && t.missingTiming == 0 && t.durationMs == Or0(f.durationMs)
        && t.totalTokens == Or0(f.totalTokens) && t.inputTokens == Or0(f.inputTokens) && t.outputTokens == Or0(f.outputTokens)
  {
    hide GradingSummary;
  }

  lemma AgreesStep(r: Readings, t: Tally, s: Sample)
    requires Agrees(r, t)
    ensures Agrees(With(r, s.timing), Add(t, OfCompleted(s)))
  {
    hide Sum, OfCompleted;
    TimedPart(s);
    if s.timing.Some? {
      var f := s.timing.value;
      SumOfMore(r.durations, f.durationMs);
      SumOfMore(r.total, f.totalTokens);
      SumOfMore(r.input, f.inputTokens);
      SumOfMore(r.output, f.outputTokens);
    }
  }

  ghost predicate FailedAgrees(r: Readings, t: Tally) {
    && r.runs == t.failedRuns && r.missing == t.failedMissingTiming && Sum(r.durations) == t.failedDurationMs
    && Sum(r.total) == t.failedTotalTokens && Sum(r.input) == t.failedInputTokens && Sum(r.output) == t.failedOutputTokens
  }

  lemma FailedAgreesStep(r: Readings, t: Tally, s: Sample)
    requires FailedAgrees(r, t)
    ensures FailedAgrees(With(r, s.timing), Add(t, OfFailed(s)))
  {
    hide Sum;
    if s.timing.Some? {
      var f := s.timing.value;
      SumOfMore(r.durations, f.durationMs);
      SumOfMore(r.total, f.totalTokens);
      SumOfMore(r.input, f.inputTokens);
      SumOfMore(r.output, f.outputTokens);
    }
  }

  lemma TimingsStep(samples: seq<Sample>, i: nat)
    requires i < |samples|
    ensures AllOf(Timings(samples[..i + 1])) == With(AllOf(Timings(samples[..i])), samples[i].timing)
  {
    hide With;
    assert samples[..i + 1][..i] == samples[..i];
    var before := Timings(samples[..i]);
    assert (before + [samples[i].timing])[..|before|] == before;
  }

  // ----- the operations -----

  /** Nothing is counted in the failed bucket. */
  predicate NoneFailed(t: Tally) {
    t.failedRuns == t.failedDurationMs == t.failedTotalTokens == t.failedInputTokens == t.failedOutputTokens
      == t.failedMissingTiming == 0
  }

  /** Nothing is counted outside the failed bucket. */
  predicate OnlyFailed(t: Tally) {
    && t.runs == t.assertionsPassed == t.assertionsFailed == t.runsPassed == t.runsFailed == t.durationMs == 0
    && t.totalTokens == t.inputTokens == t.outputTokens == t.missingGrading == t.missingTiming == t.skipped == 0
  }

  lemma {:induction false} TotalsKeepApart(samples: seq<Sample>)
    ensures NoneFailed(CompletedTotal(samples)) && CompletedTotal(samples).skipped == 0
    ensures OnlyFailed(FailedTotal(samples)) && FailedTotal(samples).failedRuns == |samples|
  {
    if samples == [] {
    } else {
      hide GradingSummary;
      TotalsKeepApart(samples[..|samples| - 1]);
    }
  }

  /** What the failed bucket must say for its samples. */
  ghost predicate SummarizesFailed(b: FailedBucket, t: Tally, readings: Readings) {
    && b == FailedBucket(t.failedRuns, t.failedDurationMs, TokenStats(readings), t.failedMissingTiming)
    && FailedAgrees(readings, t)
  }

  method SummarizeFailedBucket(samples: seq<Sample>) returns (b: FailedBucket)
    ensures SummarizesFailed(b, FailedTotal(samples), AllOf(Timings(samples)))
  {
    hide OfFailed, With, Sum;
    var timing := new ArmTiming();
    assert samples[..0] == [];
    Untouched();
    for i := 0 to |samples|
      invariant timing.Read() == AllOf(Timings(samples[..i]))
      invariant FailedAgrees(timing.Read(), FailedTotal(samples[..i]))
    {
      TimingsStep(samples, i);
      FailedAgreesStep(timing.Read(), FailedTotal(samples[..i]), samples[i]);
      assert samples[..i + 1] == samples[..i] + [samples[i]];
      FailedStep(samples[..i], samples[i]);
      timing.RecordRun(samples[i].timing);
    }
    assert samples[..|samples|] == samples;
    b := FailedBucket(timing.runs, Sum(timing.durationMs), TokenStats(timing.Read()), timing.missingTiming);
  }

  lemma Untouched()
    ensures AllOf(Timings([])) == NO_READINGS && FailedTotal([]) == NOTHING && CompletedTotal([]) == NOTHING
    ensures FailedAgrees(NO_READINGS, NOTHING) && Agrees(NO_READINGS, NOTHING)
  {}

  /** What the completed bucket must say for its samples and the failures scored as zero. */
  ghost predicate Summarizes(b: CompletedBucket, t: Tally, readings: Readings) {
    && b.runCount == t.runs
    && b.assertions == PassFail(t.assertionsPassed, t.assertionsFailed)
    && b.runs == PassFail(t.runsPassed, t.runsFailed)
    && b.durationMs == t.durationMs
    && b.tokens == TokenStats(readings)
    && b.missingGrading == t.missingGrading && b.missingTiming == t.missingTiming
  }

  lemma CompletedKinds(s: Sample)
    ensures
      var t := OfCompleted(s);
      && t.missingGrading == (if s.grading.None? then 1 else 0)
      && (s.grading.None? ==> t.assertionsPassed == t.assertionsFailed == t.runsPassed == t.runsFailed == 0)
      && (s.grading.Some? ==>
            var g := GradingSummary(s.grading.value);
            && t.assertionsPassed == g.passed && t.assertionsFailed == g.failed
            && t.runsPassed == (if g.failed == 0 && g.Total() > 0 then 1 else 0)
            && t.runsFailed == (if g.failed != 0 && g.Total() > 0 then 1 else 0))
  {}

  lemma CountsAddUp(t: Tally, x: Tally)
    ensures
      var u := Add(t, x);
      && u.missingGrading == t.missingGrading + x.missingGrading
      && u.assertionsPassed == t.assertionsPassed + x.assertionsPassed
      && u.assertionsFailed == t.assertionsFailed + x.assertionsFailed
      && u.runsPassed == t.runsPassed + x.runsPassed && u.runsFailed == t.runsFailed + x.runsFailed
  {}

  lemma WhatAgrees(r: Readings, t: Tally)
    requires Agrees(r, t)
    ensures r.runs == t.runs && r.missing == t.missingTiming && Sum(r.durations) == t.durationMs
  {}

  method SummarizeCompleted(samples: seq<Sample>, zeroFailedCount: nat) returns (b: CompletedBucket)
    ensures
      var t := CompletedTotal(samples);
      var r := AllOf(Timings(samples));
      Summarizes(b, t.(runs := t.runs + zeroFailedCount, runsFailed := t.runsFailed + zeroFailedCount),
                 r.(runs := r.runs + zeroFailedCount))
      && Agrees(r, t)
  {
    hide OfCompleted, With, Sum, AllOf, Timings, GradingSummary, Add, CompletedTotal, Agrees;
    var missingGrading, assertionPassed, assertionFailed, runPassed, runFailed := 0, 0, 0, 0, 0;
    var timing := new ArmTiming();
    assert samples[..0] == [];
    Untouched();
    for i := 0 to |samples|
      invariant timing.Read() == AllOf(Timings(samples[..i]))
      invariant Agrees(timing.Read(), CompletedTotal(samples[..i]))
      invariant
        var t := CompletedTotal(samples[..i]);
        && missingGrading == t.missingGrading && assertionPassed == t.assertionsPassed && assertionFailed == t.assertionsFailed
        && runPassed == t.runsPassed && runFailed == t.runsFailed
    {
      var sample := samples[i];
      TimingsStep(samples, i);
      AgreesStep(timing.Read(), CompletedTotal(samples[..i]), sample);
      assert samples[..i + 1] == samples[..i] + [sample];
      CompletedStep(samples[..i], sample);
      CompletedKinds(sample);
      CountsAddUp(CompletedTotal(samples[..i]), OfCompleted(sample));
      timing.RecordRun(sample.timing);
      if sample.grading.None? {
        missingGrading := missingGrading + 1;
      } else {
        var summary := GradingSummary(sample.grading.value);
        assertionPassed := assertionPassed + summary.passed;
        assertionFailed := assertionFailed + summary.failed;
        if summary.failed == 0 && summary.Total() > 0 {
          runPassed := runPassed + 1;
        } else if summary.Total() > 0 {
          runFailed := runFailed + 1;
        }
      }
    }
    assert samples[..|samples|] == samples;
    WhatAgrees(timing.Read(), CompletedTotal(samples));
    runFailed := runFailed + zeroFailedCount;
    timing.CountUnreadRuns(zeroFailedCount);
    b := CompletedBucket(timing.runs, PassFail(assertionPassed, assertionFailed), PassFail(runPassed, runFailed),
                         Sum(timing.durationMs), TokenStats(timing.Read()), missingGrading, timing.missingTiming);
  }

  /** A scenario's published buckets say what its accumulated runs add up to, and nothing that
      did not happen: a failed bucket appears only in bucket mode and only for failed runs. */
  ghost predicate Publishes(m: Measured, a: Accumulator, mode: FailedRunsMode) {
    && Numbers(m) == Shape(a, mode)
    && (m.failed.Some? <==> mode == Bucket && a.failed != [])
    && m.completed.tokens == TokenStats(AllOf(Timings(a.completed)).(runs := m.completed.runCount))
    && (m.failed.Some? ==> m.failed.value.tokens == TokenStats(AllOf(Timings(a.failed))))
  }

  lemma SumOrNoneIsSum(values: seq<nat>)
    ensures Or0(SumOrNone(values)) == Sum(values)
  {}

  lemma PublishedNumbers(m: Measured, a: Accumulator, mode: FailedRunsMode, zero: nat)
    requires zero == if mode == Zero then |a.failed| else 0
    requires
      var t, r := CompletedTotal(a.completed), AllOf(Timings(a.completed));
      && Summarizes(m.completed, t.(runs := t.runs + zero, runsFailed := t.runsFailed + zero), r.(runs := r.runs + zero))
      && Agrees(r, t)
    requires m.skipped == a.skipped
    requires m.failed.Some? <==> mode == Bucket && a.failed != []
    requires m.failed.Some? ==> SummarizesFailed(m.failed.value, FailedTotal(a.failed), AllOf(Timings(a.failed)))
    ensures Numbers(m) == Shape(a, mode)
  {
    hide CompletedTotal, AllOf, Timings, Sum, SumOrNone, FailedTotal, CostOfBucket;
    var r := AllOf(Timings(a.completed));
    SumOrNoneIsSum(r.total);
    SumOrNoneIsSum(r.input);
    SumOrNoneIsSum(r.output);
    var f := AllOf(Timings(a.failed));
    SumOrNoneIsSum(f.total);
    SumOrNoneIsSum(f.input);
    SumOrNoneIsSum(f.output);
    TotalsKeepApart(a.completed);
    TotalsKeepApart(a.failed);
    if a.failed == [] { Untouched(); }
  }

  method FinalizeScenario(a: Accumulator, mode: FailedRunsMode) returns (m: Measured)
    ensures Publishes(m, a, mode)
  {
    hide CompletedTotal, AllOf, Timings, Shape, Sum, FailedTotal, Numbers, TokenStats;
    var zero := if mode == Zero then |a.failed| else 0;
    var completed := SummarizeCompleted(a.completed, zero);
    var failed := None;
    if mode == Bucket && a.failed != [] {
      var bucket := SummarizeFailedBucket(a.failed);
      failed := Some(bucket);
    }
    m := Measured(completed, failed, a.skipped);
    PublishedNumbers(m, a, mode, zero);
  }

  /** The runs of one scenario, sorted into what becomes of them. */
  function Collected(runs: seq<Run>, s: ScenarioKind, mode: FailedRunsMode): Accumulator {
    if runs == [] then NO_RUNS
    else
      var before, last := Collected(runs[..|runs| - 1], s, mode), runs[|runs| - 1];
      if last.scenario == s then Accumulated(before, last, mode) else before
  }

  lemma {:induction false} CollectedAddsUp(runs: seq<Run>, s: ScenarioKind, mode: FailedRunsMode)
    ensures Shape(Collected(runs, s, mode), mode) == Total(runs, s, mode)
  {
    if runs == [] {
      assert CompletedTotal([]) == NOTHING && FailedTotal([]) == NOTHING by { Untouched(); }
    } else {
      hide Shape, Accumulated;
      var init, last := runs[..|runs| - 1], runs[|runs| - 1];
      CollectedAddsUp(init, s, mode);
      ShapeStep(Collected(init, s, mode), last, mode);
      AddNothing(Total(init, s, mode));
    }
  }

  lemma CollectedStep(runs: seq<Run>, i: nat, s: ScenarioKind, mode: FailedRunsMode)
    requires i < |runs|
    ensures
      var before := Collected(runs[..i], s, mode);
      Collected(runs[..i + 1], s, mode) == if runs[i].scenario == s then Accumulated(before, runs[i], mode) else before
  {
    assert runs[..i + 1][..i] == runs[..i];
  }

  /** Every scenario's numbers are the sum of what each of the runs contributes to it. */
  method MeasureScenarios(runs: seq<Run>, mode: FailedRunsMode) returns (r: map<ScenarioKind, Measured>)
    ensures forall s: ScenarioKind :: s in r && Publishes(r[s], Collected(runs, s, mode), mode)
    ensures forall s: ScenarioKind :: s in r && Numbers(r[s]) == Total(runs, s, mode)
  {
    hide Collected, Shape, Total, Numbers, CostOfBucket, ClassifyRun, Timings, AllOf;
    var byScenario: map<ScenarioKind, Accumulator> := map[];
    assert runs[..0] == [];
    NothingCollected(mode);
    for i := 0 to |runs|
      invariant forall s: ScenarioKind :: (if s in byScenario then byScenario[s] else NO_RUNS) == Collected(runs[..i], s, mode)
    {
      var run := runs[i];
      forall s: ScenarioKind { CollectedStep(runs, i, s, mode); }
      var entry := if run.scenario in byScenario then byScenario[run.scenario] else NO_RUNS;
      match ClassifyRun(run.status, mode) {
        case Completed => entry := entry.(completed := entry.completed + [run.sample]);
        case Failed => entry := entry.(failed := entry.failed + [run.sample]);
        case Skipped => entry := entry.(skipped := entry.skipped + 1);
        case Excluded =>
      }
      byScenario := byScenario[run.scenario := entry];
    }
    assert runs[..|runs|] == runs;
    r := map[];
    var all := [WithSkill, WithoutSkill, OldSkill];
    for i := 0 to |all|
      invariant forall j :: 0 <= j < i ==> all[j] in r && Publishes(r[all[j]], Collected(runs, all[j], mode), mode)
    {
      var a := if all[i] in byScenario then byScenario[all[i]] else NO_RUNS;
      var measured := FinalizeScenario(a, mode);
      r := r[all[i] := measured];
    }
    forall s: ScenarioKind ensures s in r && Publishes(r[s], Collected(runs, s, mode), mode) {
      assert s == all[0] || s == all[1] || s == all[2];
    }
    forall s: ScenarioKind { CollectedAddsUp(runs, s, mode); }
  }

  lemma NothingCollected(mode: FailedRunsMode)
    ensures forall s: ScenarioKind :: Collected([], s, mode) == NO_RUNS
  {}

  // ----- the parts of a report -----

  /** The runs that carry tag `k`, in order: one split, one case, one iteration. */
  function Part(runs: seq<Run>, tags: seq<nat>, k: nat): seq<Run>
    requires |runs| == |tags|
  {
    if runs == [] then []
    else
      var n := |runs| - 1;
      Part(runs[..n], tags[..n], k) + if tags[n] == k then [runs[n]] else []
  }

  function TotalOfParts(runs: seq<Run>, tags: seq<nat>, parts: nat, s: ScenarioKind, mode: FailedRunsMode): Tally
    requires |runs| == |tags|
  {
    if parts == 0 then NOTHING
    else Add(TotalOfParts(runs, tags, parts - 1, s, mode), Total(Part(runs, tags, parts - 1), s, mode))
  }

  lemma TotalStep(runs: seq<Run>, r: Run, s: ScenarioKind, mode: FailedRunsMode)
    ensures Total(runs + [r], s, mode) == Add(Total(runs, s, mode), Contribution(r, s, mode))
  {}

  lemma {:induction false} OneMoreRun(runs: seq<Run>, tags: seq<nat>, parts: nat, s: ScenarioKind, mode: FailedRunsMode)
    requires |runs| == |tags| > 0
    ensures
      var n := |runs| - 1;
      TotalOfParts(runs, tags, parts, s, mode)
        == Add(TotalOfParts(runs[..n], tags[..n], parts, s, mode),
               if tags[n] < parts then Contribution(runs[n], s, mode) else NOTHING)
    decreases parts
  {
    hide Total, Contribution, Add;
    var n := |runs| - 1;
    if parts == 0 {
      AddNothing(NOTHING);
    } else {
      var k := parts - 1;
      var before := Part(runs[..n], tags[..n], k);
      var rest, c := TotalOfParts(runs[..n], tags[..n], k, s, mode), Contribution(runs[n], s, mode);
      OneMoreRun(runs, tags, k, s, mode);
      TotalStep(before, runs[n], s, mode);
      AddNothing(rest);
      AddNothing(Add(rest, Total(before, s, mode)));
      AddShuffles(rest, Total(before, s, mode), NOTHING, c);
      AddNothing(Add(Add(rest, c), Total(before, s, mode)));
      AddNothing(Add(rest, Add(Total(before, s, mode), c)));
      assert before + [] == before;
    }
  }

  /** However the runs are divided into parts, the parts' numbers add up to the whole, in every
      mode and for every scenario. */
  lemma {:induction false} PartsAddUp(runs: seq<Run>, tags: seq<nat>, parts: nat, s: ScenarioKind, mode: FailedRunsMode)
    requires |runs| == |tags| && forall i :: 0 <= i < |tags| ==> tags[i] < parts
    ensures TotalOfParts(runs, tags, parts, s, mode) == Total(runs, s, mode)
    decreases |runs|
  {
    if runs == [] {
      NoParts(tags, parts, s, mode);
    } else {
      hide Contribution, TotalOfParts;
      var n := |runs| - 1;
      OneMoreRun(runs, tags, parts, s, mode);
      PartsAddUp(runs[..n], tags[..n], parts, s, mode);
    }
  }

  lemma {:induction false} NoParts(tags: seq<nat>, parts: nat, s: ScenarioKind, mode: FailedRunsMode)
    requires tags == []
    ensures TotalOfParts([], tags, parts, s, mode) == NOTHING
    decreases parts
  {
    if parts == 0 {
    } else {
      NoParts(tags, parts - 1, s, mode);
    }
  }

  // ----- no run is lost -----

  function CountOf(runs: seq<Run>, s: ScenarioKind): nat {
    if runs == [] then 0 else CountOf(runs[..|runs| - 1], s) + if runs[|runs| - 1].scenario == s then 1 else 0
  }

  function CountExcluded(runs: seq<Run>, s: ScenarioKind, mode: FailedRunsMode): nat {
    if runs == [] then 0
    else
      var last := runs[|runs| - 1];
      CountExcluded(runs[..|runs| - 1], s, mode) + if last.scenario == s && ClassifyRun(last.status, mode) == Excluded then 1 else 0
  }

  lemma OneRunLandsOnce(r: Run, s: ScenarioKind, mode: FailedRunsMode)
    ensures
      var c := Contribution(r, s, mode);
      c.runs + c.failedRuns + c.skipped
        == if r.scenario == s && ClassifyRun(r.status, mode) != Excluded then 1 else 0
    ensures ClassifyRun(r.status, mode) == Excluded ==> mode == Exclude
  {}

  /** Every run of a scenario is counted once: as completed, in the failed bucket, as skipped, or
      it is a failed run and failed runs are left out. */
  lemma {:induction false} EveryRunLandsOnce(runs: seq<Run>, s: ScenarioKind, mode: FailedRunsMode)
    ensures
      var t := Total(runs, s, mode);
      CountOf(runs, s) == t.runs + t.failedRuns + t.skipped + CountExcluded(runs, s, mode)
    ensures mode != Exclude ==> CountExcluded(runs, s, mode) == 0
  {
    if runs == [] {
    } else {
      hide Contribution, ClassifyRun;
      EveryRunLandsOnce(runs[..|runs| - 1], s, mode);
      OneRunLandsOnce(runs[|runs| - 1], s, mode);
    }
  }

  // ----- the three modes -----

  /** What scoring the failures as zero makes of numbers that count them apart. */
  function ScoredAsZero(t: Tally): Tally {
    t.(runs := t.runs + t.failedRuns, runsFailed := t.runsFailed + t.failedRuns,
       failedRuns := 0, failedDurationMs := 0, failedTotalTokens := 0, failedInputTokens := 0,
       failedOutputTokens := 0, failedMissingTiming := 0)
  }

  /** What leaving the failures out makes of them. */
  function LeftOut(t: Tally): Tally {
    t.(failedRuns := 0, failedDurationMs := 0, failedTotalTokens := 0, failedInputTokens := 0,
       failedOutputTokens := 0, failedMissingTiming := 0)
  }

  lemma ModesAddUp(a: Tally, b: Tally)
    ensures ScoredAsZero(Add(a, b)) == Add(ScoredAsZero(a), ScoredAsZero(b))
    ensures LeftOut(Add(a, b)) == Add(LeftOut(a), LeftOut(b))
  {}

  lemma NoFailedRuns(t: Tally)
    requires NoneFailed(t)
    ensures ScoredAsZero(t) == t == LeftOut(t)
  {}

  lemma ModesOfFailed(s: Sample)
    ensures ScoredAsZero(OfFailed(s)) == NOTHING.(runs := 1, runsFailed := 1)
    ensures LeftOut(OfFailed(s)) == NOTHING
  {}

  lemma ModesAgreeOnOne(r: Run, s: ScenarioKind)
    ensures Contribution(r, s, Zero) == ScoredAsZero(Contribution(r, s, Bucket))
    ensures Contribution(r, s, Exclude) == LeftOut(Contribution(r, s, Bucket))
  {
    hide OfCompleted, OfFailed, ScoredAsZero, LeftOut;
    CompletedIsNotFailed(r.sample);
    NoFailedRuns(OfCompleted(r.sample));
    ModesOfFailed(r.sample);
    NoFailedRuns(NOTHING);
    NoFailedRuns(NOTHING.(skipped := 1));
  }

  lemma CompletedIsNotFailed(s: Sample)
    ensures NoneFailed(OfCompleted(s)) && OfCompleted(s).skipped == 0
  {
    hide GradingSummary;
  }

  /** The modes differ in the failed runs alone: scoring them as zero moves them into the completed
      bucket as failed runs without readings, and excluding them drops their bucket. */
  lemma {:induction false} ModesAgree(runs: seq<Run>, s: ScenarioKind)
    ensures Total(runs, s, Zero) == ScoredAsZero(Total(runs, s, Bucket))
    ensures Total(runs, s, Exclude) == LeftOut(Total(runs, s, Bucket))
  {
    hide Contribution, Add, ScoredAsZero, LeftOut;
    if runs == [] {
      NoFailedRuns(NOTHING);
    } else {
      var init, last := runs[..|runs| - 1], runs[|runs| - 1];
      ModesAgree(init, s);
      ModesAgreeOnOne(last, s);
      ModesAddUp(Total(init, s, Bucket), Contribution(last, s, Bucket));
    }
  }

  // ----- pooled rates -----

  function Assertions(t: Tally): PassFail {
    PassFail(t.assertionsPassed, t.assertionsFailed)
  }

  function Runs(t: Tally): PassFail {
    PassFail(t.runsPassed, t.runsFailed)
  }

  ghost predicate RateWithin(p: PassFail, lo: real, hi: real) {
    p.Total() > 0 ==> lo <= p.PassRate() <= hi
  }

  function Times(x: real, y: real): real {
    x * y
  }

  lemma ScalingKeepsOrder(x: real, r: real, t: real)
    requires t > 0.0
    ensures x <= r <==> Times(x, t) <= Times(r, t)
  {}

  lemma RateTimesTotal(p: PassFail)
    requires p.Total() > 0
    ensures Times(p.PassRate(), p.Total() as real) == p.passed as real
  {}

  lemma TimesZero(x: real)
    ensures Times(x, 0.0) == 0.0
  {}

  lemma ProductsAdd(x: real, a: real, b: real)
    ensures Times(x, a + b) == Times(x, a) + Times(x, b)
  {}

  lemma RateAsProduct(p: PassFail, lo: real, hi: real)
    ensures RateWithin(p, lo, hi) <==> Times(lo, p.Total() as real) <= p.passed as real <= Times(hi, p.Total() as real)
  {
    hide Times, PassFail.PassRate;
    var t := p.Total() as real;
    if p.Total() > 0 {
      RateTimesTotal(p);
      ScalingKeepsOrder(lo, p.PassRate(), t);
      ScalingKeepsOrder(p.PassRate(), hi, t);
    } else {
      TimesZero(lo);
      TimesZero(hi);
    }
  }

  lemma PooledWithin(p: PassFail, q: PassFail, lo: real, hi: real)
    requires RateWithin(p, lo, hi) && RateWithin(q, lo, hi)
    ensures RateWithin(PassFail(p.passed + q.passed, p.failed + q.failed), lo, hi)
  {
    hide RateWithin, Times;
    var both := PassFail(p.passed + q.passed, p.failed + q.failed);
    RateAsProduct(p, lo, hi);
    RateAsProduct(q, lo, hi);
    RateAsProduct(both, lo, hi);
    assert both.Total() as real == p.Total() as real + q.Total() as real;
    ProductsAdd(lo, p.Total() as real, q.Total() as real);
    ProductsAdd(hi, p.Total() as real, q.Total() as real);
  }

  lemma {:induction false} PartsStayWithin(runs: seq<Run>, tags: seq<nat>, parts: nat, s: ScenarioKind,
                                           mode: FailedRunsMode, lo: real, hi: real)
    requires |runs| == |tags|
    requires forall k: nat :: k < parts ==>
      var t := Total(Part(runs, tags, k), s, mode);
      RateWithin(Assertions(t), lo, hi) && RateWithin(Runs(t), lo, hi)
    ensures
      var t := TotalOfParts(runs, tags, parts, s, mode);
      RateWithin(Assertions(t), lo, hi) && RateWithin(Runs(t), lo, hi)
    decreases parts
  {
    hide RateWithin, Total, Part;
    if parts == 0 {
      RateAsProduct(PassFail(0, 0), lo, hi);
    } else {
      PartsStayWithin(runs, tags, parts - 1, s, mode, lo, hi);
      var before, last := TotalOfParts(runs, tags, parts - 1, s, mode), Total(Part(runs, tags, parts - 1), s, mode);
      PooledWithin(Assertions(before), Assertions(last), lo, hi);
      PooledWithin(Runs(before), Runs(last), lo, hi);
    }
  }

  /** The pooled pass rates lie within whatever bounds hold for every part that scored something;
      for two parts, between theirs. */
  lemma PooledRateIsBetween(runs: seq<Run>, tags: seq<nat>, parts: nat, s: ScenarioKind, mode: FailedRunsMode,
                            lo: real, hi: real)
    requires |runs| == |tags| && forall i :: 0 <= i < |tags| ==> tags[i] < parts
    requires forall k: nat :: k < parts ==>
      var t := Total(Part(runs, tags, k), s, mode);
      RateWithin(Assertions(t), lo, hi) && RateWithin(Runs(t), lo, hi)
    ensures
      var t := Total(runs, s, mode);
      RateWithin(Assertions(t), lo, hi) && RateWithin(Runs(t), lo, hi)
  {
    hide RateWithin, Total, Part, TotalOfParts;
    PartsStayWithin(runs, tags, parts, s, mode, lo, hi);
    PartsAddUp(runs, tags, parts, s, mode);
  }
}
