/** What a scenario's published numbers count, told from the raw results and the raw runs. */
module BenchmarkCounts {
  import opened Wrappers
  import opened Scenarios
  import opened ArmTimings
  import opened Benchmark

  // ----- what a grading says -----

  /** The summary a grading states, which is taken as it stands when it covers anything. */
  predicate States(g: Grading) {
    g.summary.Some? && g.summary.value.total > 0
  }

  /** The first `n` results that are scored and passed, or are scored and did not. */
  function Scores(results: seq<Assertion>, passed: bool, n: nat): set<nat>
    requires n <= |results|
  {
    set k: nat | k < n && !results[k].unsupported && !results[k].excluded && results[k].passed == passed
  }

  function PassedIn(g: Grading): nat {
    if States(g) then g.summary.value.passed else |Scores(g.results, true, |g.results|)|
  }

  function FailedIn(g: Grading): nat {
    if States(g) then g.summary.value.failed else |Scores(g.results, false, |g.results|)|
  }

  lemma {:induction false} ScoredConcat(a: seq<Assertion>, b: seq<Assertion>)
    ensures Scored(a + b) == Scored(a) + Scored(b)
  {
    if a == [] {
      assert a + b == b;
    } else {
      ScoredConcat(a[1..], b);
      assert (a + b)[1..] == a[1..] + b && (a + b)[0] == a[0];
      var x := if !a[0].unsupported && !a[0].excluded then [a[0]] else [];
      assert x + (Scored(a[1..]) + Scored(b)) == (x + Scored(a[1..])) + Scored(b);
    }
  }

  lemma {:induction false} PassedConcat(a: seq<Assertion>, b: seq<Assertion>)
    ensures CountPassed(a + b) == CountPassed(a) + CountPassed(b)
  {
    if a == [] {
      assert a + b == b;
    } else {
      PassedConcat(a[1..], b);
      assert (a + b)[1..] == a[1..] + b;
    }
  }

  lemma ScoresGrow(results: seq<Assertion>, passed: bool, n: nat)
    requires n < |results|
    ensures
      var x := results[n];
      |Scores(results, passed, n + 1)|
        == |Scores(results, passed, n)| + if !x.unsupported && !x.excluded && x.passed == passed then 1 else 0
  {
    var x := results[n];
    if !x.unsupported && !x.excluded && x.passed == passed {
      assert Scores(results, passed, n + 1) == Scores(results, passed, n) + {n};
    } else {
      assert Scores(results, passed, n + 1) == Scores(results, passed, n);
    }
  }

  lemma {:induction false} ScoredByIndex(results: seq<Assertion>, n: nat)
    requires n <= |results|
    ensures CountPassed(Scored(results[..n])) == |Scores(results, true, n)|
    ensures |Scored(results[..n])| == |Scores(results, true, n)| + |Scores(results, false, n)|
    decreases n
  {
    if n == 0 {
      assert Scores(results, true, 0) == {} && Scores(results, false, 0) == {};
    } else {
      ScoredByIndex(results, n - 1);
      ScoresGrow(results, true, n - 1);
      ScoresGrow(results, false, n - 1);
      hide Scores;
      var x := results[n - 1];
      assert results[..n] == results[..n - 1] + [x];
      ScoredConcat(results[..n - 1], [x]);
      PassedConcat(Scored(results[..n - 1]), Scored([x]));
      ScoredOfOne(x);
    }
  }

  lemma ScoredOfOne(x: Assertion)
    ensures Scored([x]) == (if !x.unsupported && !x.excluded then [x] else [])
    ensures CountPassed(Scored([x])) == if !x.unsupported && !x.excluded && x.passed then 1 else 0
  {
    assert [x][1..] == [];
  }

  /** A grading counts the scored results that passed and those that did not, unless it states a
      summary of its own. */
  lemma GradingCounts(g: Grading)
    ensures GradingSummary(g) == PassFail(PassedIn(g), FailedIn(g))
  {
    hide Scores;
    ScoredByIndex(g.results, |g.results|);
    assert g.results[..|g.results|] == g.results;
  }

  /** A result that is unsupported or excluded changes nothing, wherever it stands. */
  lemma UnscoredChangesNothing(g: Grading, i: nat, x: Assertion)
    requires i <= |g.results| && (x.unsupported || x.excluded)
    ensures GradingSummary(g.(results := g.results[..i] + [x] + g.results[i..])) == GradingSummary(g)
  {
    var a, b := g.results[..i], g.results[i..];
    ScoredConcat(a + [x], b);
    ScoredConcat(a, [x]);
    ScoredOfOne(x);
    ScoredConcat(a, b);
    assert a + b == g.results;
    assert Scored(a) + [] == Scored(a);
  }

  lemma OneTimes(x: real)
    ensures Times(1.0, x) == x && Times(x, 1.0) == x && Times(0.0, x) == 0.0
  {}

  lemma RateAtMostOne(p: PassFail)
    ensures RateWithin(p, 0.0, 1.0)
  {
    hide Times, RateWithin;
    RateAsProduct(p, 0.0, 1.0);
    OneTimes(p.Total() as real);
  }

  lemma QuotientTimes(x: real, y: real)
    requires y != 0.0
    ensures x / y * y == x
  {}

  /** The pass rate times what was scored is what passed. */
  lemma RateOfTheScored(p: PassFail)
    ensures p.PassRate() * p.Total() as real == p.passed as real
  {
    if p.Total() > 0 { QuotientTimes(p.passed as real, p.Total() as real); }
  }

  /** The pass rate is one exactly when something was scored and nothing failed, and zero exactly when
      nothing passed. */
  lemma RateAtTheEnds(p: PassFail)
    ensures p.PassRate() == 1.0 <==> p.failed == 0 && p.passed > 0
    ensures p.PassRate() == 0.0 <==> p.passed == 0
  {
    hide Times;
    RateAsProduct(p, 1.0, 1.0);
    RateAsProduct(p, 0.0, 0.0);
    OneTimes(p.Total() as real);
  }

  /** One more passed result never lowers the pass rate. */
  lemma PassingNeverLowersTheRate(p: PassFail)
    requires p.Total() > 0
    ensures p.PassRate() <= PassFail(p.passed + 1, p.failed).PassRate()
  {
    hide Times, PassFail.PassRate;
    var q, r, t := PassFail(p.passed + 1, p.failed), p.PassRate(), p.Total() as real;
    RateAtMostOne(p);
    RateTimesTotal(p);
    ProductsAdd(r, t, 1.0);
    OneTimes(r);
    assert q.Total() as real == t + 1.0;
    RateTimesTotal(q);
    ScalingKeepsOrder(r, q.PassRate(), t + 1.0);
  }

  /** One more failed result never raises it. */
  lemma FailingNeverRaisesTheRate(p: PassFail)
    requires p.Total() > 0
    ensures PassFail(p.passed, p.failed + 1).PassRate() <= p.PassRate()
  {
    hide Times, PassFail.PassRate;
    var q, r, t := PassFail(p.passed, p.failed + 1), p.PassRate(), p.Total() as real;
    RateAtMostOne(p);
    RateTimesTotal(p);
    ProductsAdd(r, t, 1.0);
    OneTimes(r);
    assert q.Total() as real == t + 1.0;
    RateTimesTotal(q);
    ScalingKeepsOrder(q.PassRate(), r, t + 1.0);
  }

  // ----- what a scenario's numbers say -----

  predicate HasFailed(status: string) {
    status in ["failed", "timeout", "budget_exhausted"]
  }

  predicate HasCompleted(status: string) {
    status !in ["failed", "timeout", "budget_exhausted", "skipped"]
  }

  datatype Number =
    | RunCount | AssertionsPassed | AssertionsFailed | RunsPassed | RunsFailed | Duration
    | TotalTokens | InputTokens | OutputTokens | MissingGrading | MissingTiming
    | FailedRuns | FailedDuration | FailedTotalTokens | FailedInputTokens | FailedOutputTokens | FailedMissingTiming
    | SkippedRuns

  function Said(t: Tally, n: Number): nat {
    match n
    case RunCount => t.runs
    case AssertionsPassed => t.assertionsPassed
    case AssertionsFailed => t.assertionsFailed
    case RunsPassed => t.runsPassed
    case RunsFailed => t.runsFailed
    case Duration => t.durationMs
    case TotalTokens => t.totalTokens
    case InputTokens => t.inputTokens
    case OutputTokens => t.outputTokens
    case MissingGrading => t.missingGrading
    case MissingTiming => t.missingTiming
    case FailedRuns => t.failedRuns
    case FailedDuration => t.failedDurationMs
    case FailedTotalTokens => t.failedTotalTokens
    case FailedInputTokens => t.failedInputTokens
    case FailedOutputTokens => t.failedOutputTokens
    case FailedMissingTiming => t.failedMissingTiming
    case SkippedRuns => t.skipped
  }

  function One(b: bool): nat {
    if b then 1 else 0
  }

  function Stated(o: Option<nat>): nat {
    match o case None => 0 case Some(v) => v
  }

  /** What one sample has to say for a number of the completed bucket. */
  function OfSample(s: Sample, n: Number): nat {
    match n
    case AssertionsPassed => if s.grading.Some? then PassedIn(s.grading.value) else 0
    case AssertionsFailed => if s.grading.Some? then FailedIn(s.grading.value) else 0
    case RunsPassed => One(s.grading.Some? && PassedIn(s.grading.value) > 0 && FailedIn(s.grading.value) == 0)
    case RunsFailed => One(s.grading.Some? && FailedIn(s.grading.value) > 0)
    case MissingGrading => One(s.grading.None?)
    case MissingTiming | FailedMissingTiming => One(s.timing.None?)
    case Duration | FailedDuration => if s.timing.Some? then Stated(s.timing.value.durationMs) else 0
    case TotalTokens | FailedTotalTokens => if s.timing.Some? then Stated(s.timing.value.totalTokens) else 0
    case InputTokens | FailedInputTokens => if s.timing.Some? then Stated(s.timing.value.inputTokens) else 0
    case OutputTokens | FailedOutputTokens => if s.timing.Some? then Stated(s.timing.value.outputTokens) else 0
    case RunCount | FailedRuns | SkippedRuns => 1
  }

  predicate OfFailedBucket(n: Number) {
    n.FailedRuns? || n.FailedDuration? || n.FailedTotalTokens? || n.FailedInputTokens? || n.FailedOutputTokens?
    || n.FailedMissingTiming?
  }

  /** What one run adds to a number of its scenario. */
  function OfRun(r: Run, n: Number, mode: FailedRunsMode): nat {
    if r.status == "skipped" then One(n.SkippedRuns?)
    else if HasFailed(r.status) then
      if OfFailedBucket(n) then (if mode == Bucket then OfSample(r.sample, n) else 0)
      else One(mode == Zero && (n.RunCount? || n.RunsFailed?))
    else if OfFailedBucket(n) || n.SkippedRuns? then 0
    else OfSample(r.sample, n)
  }

  function Over(runs: seq<Run>, s: ScenarioKind, n: Number, mode: FailedRunsMode): nat {
    if runs == [] then 0
    else
      var last := runs[|runs| - 1];
      Over(runs[..|runs| - 1], s, n, mode) + if last.scenario == s then OfRun(last, n, mode) else 0
  }

  predicate OfGrading(n: Number) {
    n.AssertionsPassed? || n.AssertionsFailed? || n.RunsPassed? || n.RunsFailed? || n.MissingGrading?
  }

  lemma GradedNumbers(s: Sample, g: Grading, t: Tally)
    requires s.grading == Some(g) && t == OfCompleted(s)
    ensures t.assertionsPassed == PassedIn(g) && t.assertionsFailed == FailedIn(g) && t.missingGrading == 0
    ensures t.runsPassed == One(PassedIn(g) > 0 && FailedIn(g) == 0) && t.runsFailed == One(FailedIn(g) > 0)
  {
    hide OfCompleted, PassedIn, FailedIn, GradingSummary;
    GradingCounts(g);
    CompletedKinds(s);
  }

  lemma UngradedNumbers(s: Sample)
    requires s.grading.None?
    ensures
      var t := OfCompleted(s);
      t.assertionsPassed == t.assertionsFailed == t.runsPassed == t.runsFailed == 0 && t.missingGrading == 1
  {
    hide OfCompleted, GradingSummary;
    CompletedKinds(s);
  }

  lemma GradingSays(s: Sample, n: Number)
    requires OfGrading(n)
    ensures Said(OfCompleted(s), n) == OfSample(s, n)
  {
    hide PassedIn, FailedIn, GradingSummary;
    hide OfCompleted;
    if s.grading.Some? { GradedNumbers(s, s.grading.value, OfCompleted(s)); } else { UngradedNumbers(s); }
  }

  lemma TimingSays(s: Sample, n: Number)
    requires !OfGrading(n) && !OfFailedBucket(n) && !n.SkippedRuns?
    ensures Said(OfCompleted(s), n) == OfSample(s, n)
  {
    hide OfCompleted, PassedIn, FailedIn;
    TimedPart(s);
  }

  lemma CompletedSaysNothingElse(s: Sample, n: Number)
    requires OfFailedBucket(n) || n.SkippedRuns?
    ensures Said(OfCompleted(s), n) == 0
  {
    hide OfCompleted;
    CompletedIsNotFailed(s);
  }

  lemma OfFailedSays(s: Sample, n: Number)
    ensures Said(OfFailed(s), n) == if OfFailedBucket(n) then OfSample(s, n) else 0
  {}

  lemma OthersSay(n: Number)
    ensures Said(NOTHING, n) == 0
    ensures Said(NOTHING.(runs := 1, runsFailed := 1), n) == One(n.RunCount? || n.RunsFailed?)
    ensures Said(NOTHING.(skipped := 1), n) == One(n.SkippedRuns?)
    ensures n.SkippedRuns? || n.RunCount? || n.RunsFailed? ==> !OfFailedBucket(n)
  {}

  lemma ContributionSays(r: Run, s: ScenarioKind, n: Number, mode: FailedRunsMode)
    ensures Said(Contribution(r, s, mode), n) == if r.scenario == s then OfRun(r, n, mode) else 0
  {
    hide OfCompleted, OfFailed, OfSample, Said, OfFailedBucket, OfGrading, HasFailed, HasCompleted, ClassifyRun;
    OthersSay(n);
    if OfFailedBucket(n) || n.SkippedRuns? {
      CompletedSaysNothingElse(r.sample, n);
    } else if OfGrading(n) {
      GradingSays(r.sample, n);
    } else {
      TimingSays(r.sample, n);
    }
    OfFailedSays(r.sample, n);
    DispositionByStatus(r.status, mode);
  }

  lemma SaidAddsUp(a: Tally, b: Tally, n: Number)
    ensures Said(Add(a, b), n) == Said(a, n) + Said(b, n)
  {}

  /** Every published number of a scenario is the sum of what its runs say for it: completed runs for
      the completed bucket, failed runs for the failed one or as zeros, skipped runs for the count of
      those. */
  lemma {:induction false} EveryNumberIsTheSum(runs: seq<Run>, s: ScenarioKind, n: Number, mode: FailedRunsMode)
    ensures Said(Total(runs, s, mode), n) == Over(runs, s, n, mode)
  {
    hide Contribution, Add, OfRun;
    if runs == [] {
    } else {
      var init, last := runs[..|runs| - 1], runs[|runs| - 1];
      EveryNumberIsTheSum(init, s, n, mode);
      ContributionSays(last, s, n, mode);
      SaidAddsUp(Total(init, s, mode), Contribution(last, s, mode), n);
    }
  }

  /** A run lands in one bucket by its status alone. */
  lemma DispositionByStatus(status: string, mode: FailedRunsMode)
    ensures ClassifyRun(status, mode) == Completed <==> HasCompleted(status)
    ensures ClassifyRun(status, mode) == Skipped <==> status == "skipped"
    ensures ClassifyRun(status, mode) == Failed <==> HasFailed(status) && mode != Exclude
    ensures ClassifyRun(status, mode) == Excluded <==> HasFailed(status) && mode == Exclude
    ensures HasFailed(status) ==> status != "skipped"
  {}

  // ----- readings that nobody took -----

  datatype Kind = OfAll | OfInput | OfOutput

  /** A run's reading of one kind of tokens. */
  function Reading(timing: Option<TimingFile>, kind: Kind): Option<nat> {
    if timing.None? then None
    else
      match kind
      case OfAll => timing.value.totalTokens
      case OfInput => timing.value.inputTokens
      case OfOutput => timing.value.outputTokens
  }

  function Stat(stats: Tokens, kind: Kind): Option<nat> {
    match kind case OfAll => stats.total case OfInput => stats.input case OfOutput => stats.output
  }

  function Taken(r: Readings, kind: Kind): seq<nat> {
    match kind case OfAll => r.total case OfInput => r.input case OfOutput => r.output
  }

  lemma TakenWith(r: Readings, timing: Option<TimingFile>, kind: Kind)
    ensures Taken(With(r, timing), kind) == Taken(r, kind) + Listed(Reading(timing, kind))
  {}

  lemma {:induction false} TakenIfRead(timings: seq<Option<TimingFile>>, kind: Kind)
    ensures Taken(AllOf(timings), kind) != [] <==> exists i :: 0 <= i < |timings| && Reading(timings[i], kind).Some?
  {
    if timings == [] {
    } else {
      var init, last := timings[..|timings| - 1], timings[|timings| - 1];
      TakenWith(AllOf(init), last, kind);
      TakenIfRead(init, kind);
      hide Taken, Reading, With;
      assert timings == init + [last];
    }
  }

  /** A kind of tokens has a total exactly when some run read it; a total of nothing read is absent, not
      zero. */
  lemma AbsentUnlessRead(timings: seq<Option<TimingFile>>, kind: Kind)
    ensures Stat(TokenStats(AllOf(timings)), kind).Some? <==>
      exists i :: 0 <= i < |timings| && Reading(timings[i], kind).Some?
  {
    TakenIfRead(timings, kind);
    hide AllOf, Reading, CostOfBucket;
  }
}
