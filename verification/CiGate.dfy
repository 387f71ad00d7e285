/** The numbers a report is gated on, and the gate. Rates are exact; `slack` is the small
    tolerance a rate may fall short by. */
module CiGate {
  import opened Wrappers

  const MAX_U64: nat := 0xFFFF_FFFF_FFFF_FFFF

  type U64 = n: nat | n <= MAX_U64

  // ----- collecting -----

  datatype Grading = Grading(files: nat, results: nat, passed: nat, failed: nat, unsupported: nat, excluded: nat, ungraded: nat)

  /** A run's workspace: not there, impossible to check, or checked. */
  datatype Workspace = Missing | Broken | Checked(grading: Grading)

  datatype Run = Run(status: string, totalTokens: Option<U64>, inputTokens: Option<U64>, outputTokens: Option<U64>,
                     durationMs: Option<U64>, workspace: Workspace)

  datatype Metrics = Metrics(
    totalRuns: nat, failedRuns: nat, skippedRuns: nat, completedRuns: nat, grading: Grading, passRate: Option<real>,
    totalTokens: U64, inputTokens: U64, outputTokens: U64, maxDurationMs: U64, totalDurationMs: U64)

  const NO_GRADING := Grading(0, 0, 0, 0, 0, 0, 0)
  const NO_METRICS := Metrics(0, 0, 0, 0, NO_GRADING, None, 0, 0, 0, 0, 0)

  function SaturatingAdd(a: U64, b: U64): U64 {
    if a + b > MAX_U64 then MAX_U64 else a + b
  }

  function Max(a: U64, b: U64): U64 {
    if a < b then b else a
  }

  predicate HasFailed(status: string) {
    status == "failed" || status == "timeout" || status == "budget_exhausted"
  }

  function Merged(a: Grading, b: Grading): Grading {
    Grading(a.files + b.files, a.results + b.results, a.passed + b.passed, a.failed + b.failed,
            a.unsupported + b.unsupported, a.excluded + b.excluded, a.ungraded + b.ungraded)
  }

  function PassRate(passed: nat, total: nat): Option<real> {
    if total == 0 then None else Some(passed as real / total as real)
  }

  // ----- the true sums -----

  /** What the runs add up to without any bound on the numbers. */
  datatype Tally = Tally(runs: nat, failed: nat, skipped: nat, completed: nat, grading: Grading,
                         tokens: nat, input: nat, output: nat, duration: nat)

  const NOTHING := Tally(0, 0, 0, 0, NO_GRADING, 0, 0, 0, 0)

  function Or0(n: Option<U64>): U64 {
    match n case None => 0 case Some(v) => v
  }

  function Count(b: bool): nat {
    if b then 1 else 0
  }

  function Of(r: Run): Tally {
    Tally(1, Count(HasFailed(r.status)), Count(r.status == "skipped"), Count(r.status == "completed"),
          if r.workspace.Checked? then r.workspace.grading else NO_GRADING,
          Or0(r.totalTokens), Or0(r.inputTokens), Or0(r.outputTokens), Or0(r.durationMs))
  }

  function Add(a: Tally, b: Tally): Tally {
    Tally(a.runs + b.runs, a.failed + b.failed, a.skipped + b.skipped, a.completed + b.completed,
          Merged(a.grading, b.grading), a.tokens + b.tokens, a.input + b.input, a.output + b.output, a.duration + b.duration)
  }

  function Total(runs: seq<Run>): Tally {
    if runs == [] then NOTHING else Add(Total(runs[..|runs| - 1]), Of(runs[|runs| - 1]))
  }

  function Clamped(n: nat): U64 {
    if n > MAX_U64 then MAX_U64 else n
  }

  predicate IsLongest(m: nat, runs: seq<Run>) {
    && (forall i :: 0 <= i < |runs| ==> Or0(runs[i].durationMs) <= m)
    && (m == 0 || exists i :: 0 <= i < |runs| && Or0(runs[i].durationMs) == m)
  }

  function Reported(t: Tally, longest: U64): Metrics {
    Metrics(t.runs, t.failed, t.skipped, t.completed, t.grading, PassRate(t.grading.passed, t.grading.results),
            Clamped(t.tokens), Clamped(t.input), Clamped(t.output), longest, Clamped(t.duration))
  }

  /** Every 64-bit total is the true sum clamped once, at the end. */
  predicate Measures(m: Metrics, runs: seq<Run>) {
    m == Reported(Total(runs), m.maxDurationMs) && IsLongest(m.maxDurationMs, runs)
  }

  predicate AllCheckable(runs: seq<Run>) {
    forall i :: 0 <= i < |runs| ==> !runs[i].workspace.Broken?
  }

  lemma LongestStep(m: U64, runs: seq<Run>, i: nat)
    requires i < |runs| && IsLongest(m, runs[..i])
    ensures IsLongest(Max(m, Or0(runs[i].durationMs)), runs[..i + 1])
  {}

  lemma TotalStep(runs: seq<Run>, i: nat)
    requires i < |runs|
    ensures Total(runs[..i + 1]) == Add(Total(runs[..i]), Of(runs[i]))
  {
    assert runs[..i + 1][..i] == runs[..i];
  }

  method AddReading(total: U64, reading: Option<U64>, ghost sum: nat) returns (r: U64)
    requires total == Clamped(sum)
    ensures r == Clamped(sum + Or0(reading))
  {
    r := total;
    if reading.Some? { r := SaturatingAdd(total, reading.value); }
  }

  /** Adds one run's counts and readings; `t` is what the runs before it add up to. */
  method CountRun(before: Metrics, run: Run, ghost t: Tally) returns (metrics: Metrics)
    requires before == Reported(t, before.maxDurationMs).(passRate := None)
    ensures metrics == Reported(Add(t, Of(run)), Max(before.maxDurationMs, Or0(run.durationMs))).(
                         passRate := None, grading := before.grading)
  {
    hide HasFailed, Clamped, SaturatingAdd;
    StatusesApart(run.status);
    metrics := before.(totalRuns := before.totalRuns + 1);
    if HasFailed(run.status) {
      metrics := metrics.(failedRuns := metrics.failedRuns + 1);
    } else if run.status == "skipped" {
      metrics := metrics.(skippedRuns := metrics.skippedRuns + 1);
    } else if run.status == "completed" {
      metrics := metrics.(completedRuns := metrics.completedRuns + 1);
    }
    var tokens := AddReading(metrics.totalTokens, run.totalTokens, t.tokens);
    var input := AddReading(metrics.inputTokens, run.inputTokens, t.input);
    var output := AddReading(metrics.outputTokens, run.outputTokens, t.output);
    var duration := AddReading(metrics.totalDurationMs, run.durationMs, t.duration);
    var longest := if run.durationMs.Some? then Max(metrics.maxDurationMs, run.durationMs.value) else metrics.maxDurationMs;
    metrics := metrics.(totalTokens := tokens, inputTokens := input, outputTokens := output,
                        totalDurationMs := duration, maxDurationMs := longest);
  }

  lemma StatusesApart(status: string)
    ensures HasFailed(status) ==> status != "skipped" && status != "completed"
    ensures status == "skipped" ==> status != "completed"
  {}

  lemma AllCheckableStep(runs: seq<Run>, i: nat)
    requires i < |runs| && AllCheckable(runs[..i]) && !runs[i].workspace.Broken?
    ensures AllCheckable(runs[..i + 1])
  {}

  /** Collects the metrics of a report, unless some workspace cannot be checked. */
  method CollectReportMetrics(runs: seq<Run>) returns (r: Result<Metrics>)
    ensures r.Ok? <==> AllCheckable(runs)
    ensures r.Ok? ==> Measures(r.value, runs)
  {
    hide Total, IsLongest, Of;
    var metrics := NO_METRICS;
    Empty();
    assert runs[..0] == [];
    for i := 0 to |runs|
      invariant AllCheckable(runs[..i])
      invariant metrics == Reported(Total(runs[..i]), metrics.maxDurationMs).(passRate := None)
      invariant IsLongest(metrics.maxDurationMs, runs[..i])
    {
      var run := runs[i];
      TotalStep(runs, i);
      LongestStep(metrics.maxDurationMs, runs, i);
      OfGrading(run);
      metrics := CountRun(metrics, run, Total(runs[..i]));
      if run.workspace.Broken? { return Err; }
      AllCheckableStep(runs, i);
      if run.workspace.Checked? {
        metrics := metrics.(grading := Merged(metrics.grading, run.workspace.grading));
      }
    }
    assert runs[..|runs|] == runs;
    return Ok(metrics.(passRate := PassRate(metrics.grading.passed, metrics.grading.results)));
  }

  lemma Empty()
    ensures Total([]) == NOTHING && IsLongest(0, [])
  {}

  lemma OfGrading(r: Run)
    ensures Of(r).grading == if r.workspace.Checked? then r.workspace.grading else NO_GRADING
  {}

  // ----- the order of the runs does not matter -----

  lemma AddSwaps(a: Tally, b: Tally, c: Tally)
    ensures Add(Add(a, b), c) == Add(Add(a, c), b)
  {}

  lemma {:induction false} TotalWithout(runs: seq<Run>, j: nat)
    requires j < |runs|
    ensures Total(runs) == Add(Total(runs[..j] + runs[j + 1..]), Of(runs[j]))
    decreases |runs|
  {
    hide Of, Add;
    var n := |runs| - 1;
    var rest := runs[..j] + runs[j + 1..];
    if j == n {
      assert rest == runs[..n];
    } else {
      TotalWithout(runs[..n], j);
      assert rest[..n - 1] == runs[..n][..j] + runs[..n][j + 1..] && rest[n - 1] == runs[n];
      AddSwaps(Total(rest[..n - 1]), Of(runs[j]), Of(runs[n]));
    }
  }

  lemma {:induction false} OrderDoesNotMatter(a: seq<Run>, b: seq<Run>)
    requires multiset(a) == multiset(b)
    ensures Total(a) == Total(b)
    decreases |a|
  {
    hide Of, Add;
    assert |a| == |multiset(a)| == |multiset(b)| == |b|;
    if a == [] {
    } else {
      var n := |a| - 1;
      var init, last := a[..n], a[n];
      assert a == init + [last];
      assert last in multiset(b);
      var j :| 0 <= j < |b| && b[j] == last;
      var rest := b[..j] + b[j + 1..];
      assert b == b[..j] + [last] + b[j + 1..];
      assert multiset(rest) == multiset(b) - multiset{last} == multiset(init);
      OrderDoesNotMatter(init, rest);
      TotalWithout(b, j);
    }
  }

  lemma LongestIsUnique(a: seq<Run>, b: seq<Run>, m: nat, n: nat)
    requires multiset(a) == multiset(b) && IsLongest(m, a) && IsLongest(n, b)
    ensures m <= n
  {
    if m != 0 {
      var i :| 0 <= i < |a| && Or0(a[i].durationMs) == m;
      assert a[i] in multiset(b);
    }
  }

  /** Reports of the same runs in another order have the same metrics. */
  lemma MetricsIgnoreOrder(a: seq<Run>, b: seq<Run>, m: Metrics, n: Metrics)
    requires multiset(a) == multiset(b) && Measures(m, a) && Measures(n, b)
    ensures m == n
  {
    hide Total, IsLongest;
    OrderDoesNotMatter(a, b);
    LongestIsUnique(a, b, m.maxDurationMs, n.maxDurationMs);
    LongestIsUnique(b, a, n.maxDurationMs, m.maxDurationMs);
  }

  lemma {:induction false} TotalCovers(runs: seq<Run>, i: nat)
    requires i < |runs|
    ensures Or0(runs[i].durationMs) <= Total(runs).duration
  {
    var n := |runs| - 1;
    if i < n {
      TotalCovers(runs[..n], i);
      assert runs[..n][i] == runs[i];
    }
  }

  /** No run is longer than the total, even when the total has saturated. */
  lemma LongestWithinTotal(m: Metrics, runs: seq<Run>)
    requires Measures(m, runs)
    ensures m.maxDurationMs <= m.totalDurationMs
  {
    if m.maxDurationMs != 0 {
      var i :| 0 <= i < |runs| && Or0(runs[i].durationMs) == m.maxDurationMs;
      TotalCovers(runs, i);
    }
  }

  // ----- the gate -----

  datatype Policy = Policy(runnerFailure: bool, failedAssertions: bool, missingGrading: bool,
                           passRateRegression: bool, tokenRegression: bool, durationRegression: bool)

  datatype Thresholds = Thresholds(
    minPassRate: Option<real>, minCaseScore: Option<real>, maxTokens: Option<U64>, maxInputTokens: Option<U64>,
    maxOutputTokens: Option<U64>, maxDurationMs: Option<U64>, baseline: Option<Metrics>)

  datatype CaseScore = CaseScore(runId: Option<string>, workspace: string, file: string, score: Option<real>)

  datatype FailedDetail = FailedDetail(runId: Option<string>, workspace: string, file: string, line: nat, text: string)

  datatype Evidence = Evidence(metrics: Metrics, failed: seq<FailedDetail>, ungradedWorkspaces: seq<string>,
                               scores: seq<CaseScore>)

  datatype Violation =
    | RunnerFailure
    | FailedAssertion(detail: FailedDetail)
    | MissingGrading(ungraded: string)
    | PassRateBelowMinimum
    | NothingScored
    | Ungraded
    | CaseScoreBelowMinimum(runId: Option<string>, workspace: string, file: string)
    | CaseNothingScored(runId: Option<string>, workspace: string, file: string)
    | PassRateRegression
    | TokenBudgetExceeded
    | InputTokenBudgetExceeded
    | OutputTokenBudgetExceeded
    | TokenRegression
    | DurationExceeded
    | DurationRegression

  predicate Short(rate: real, minimum: real, slack: real) {
    rate + slack < minimum
  }

  predicate Over(n: U64, maximum: Option<U64>) {
    maximum.Some? && n > maximum.value
  }

  predicate IsOf(s: CaseScore, runId: Option<string>, workspace: string, file: string) {
    s.runId == runId && s.workspace == workspace && s.file == file
  }

  /** What each violation says went wrong. */
  predicate Violates(v: Violation, e: Evidence, p: Policy, t: Thresholds, slack: real) {
    var m := e.metrics;
    match v
    case RunnerFailure => p.runnerFailure && m.failedRuns > 0
    case FailedAssertion(detail) => p.failedAssertions && detail in e.failed
    case MissingGrading(workspace) => p.missingGrading && workspace in e.ungradedWorkspaces
    case PassRateBelowMinimum =>
      t.minPassRate.Some? && m.passRate.Some? && Short(m.passRate.value, t.minPassRate.value, slack)
    case NothingScored => t.minPassRate.Some? && m.passRate.None?
    case Ungraded => m.grading.ungraded > 0
    case CaseScoreBelowMinimum(runId, workspace, file) =>
      t.minCaseScore.Some? && exists s :: s in e.scores && IsOf(s, runId, workspace, file) && s.score.Some?
                                          && Short(s.score.value, t.minCaseScore.value, slack)
    case CaseNothingScored(runId, workspace, file) =>
      t.minCaseScore.Some? && exists s :: s in e.scores && IsOf(s, runId, workspace, file) && s.score.None?
    case PassRateRegression =>
      p.passRateRegression && t.baseline.Some? && m.passRate.Some? && t.baseline.value.passRate.Some?
      && Short(m.passRate.value, t.baseline.value.passRate.value, slack)
    case TokenBudgetExceeded => Over(m.totalTokens, t.maxTokens)
    case InputTokenBudgetExceeded => Over(m.inputTokens, t.maxInputTokens)
    case OutputTokenBudgetExceeded => Over(m.outputTokens, t.maxOutputTokens)
    case TokenRegression => p.tokenRegression && t.baseline.Some? && m.totalTokens > t.baseline.value.totalTokens
    case DurationExceeded => Over(m.maxDurationMs, t.maxDurationMs)
    case DurationRegression =>
      p.durationRegression && t.baseline.Some? && m.maxDurationMs > t.baseline.value.maxDurationMs
  }

  // ----- the list of violations -----

  /** Which of the gate's checks a violation comes from. */
  datatype Check = Runs | Workspaces | Assertions | Rates | Scores | Budgets | Regressions

  function CheckOf(v: Violation): Check {
    match v
    case RunnerFailure => Runs
    case MissingGrading(_) => Workspaces
    case FailedAssertion(_) => Assertions
    case PassRateBelowMinimum | NothingScored | Ungraded => Rates
    case CaseScoreBelowMinimum(_, _, _) | CaseNothingScored(_, _, _) => Scores
    case TokenBudgetExceeded | InputTokenBudgetExceeded | OutputTokenBudgetExceeded | DurationExceeded => Budgets
    case PassRateRegression | TokenRegression | DurationRegression => Regressions
  }

  /** The violations that can come up at most once, in the order they are looked for. */
  function InOrder(check: Check): seq<Violation> {
    match check
    case Runs => [RunnerFailure]
    case Rates => [PassRateBelowMinimum, NothingScored, Ungraded]
    case Budgets => [TokenBudgetExceeded, InputTokenBudgetExceeded, OutputTokenBudgetExceeded, DurationExceeded]
    case Regressions => [PassRateRegression, TokenRegression, DurationRegression]
    case _ => []
  }

  /** Of some violations, those that hold. */
  function Holding(vs: seq<Violation>, e: Evidence, p: Policy, t: Thresholds, slack: real): seq<Violation> {
    if vs == [] then []
    else
      Holding(vs[..|vs| - 1], e, p, t, slack)
      + if Violates(vs[|vs| - 1], e, p, t, slack) then [vs[|vs| - 1]] else []
  }

  function MissingOf(workspaces: seq<string>): (vs: seq<Violation>)
    ensures |vs| == |workspaces| && forall i :: 0 <= i < |vs| ==> vs[i] == MissingGrading(workspaces[i])
  {
    seq(|workspaces|, i requires 0 <= i < |workspaces| => MissingGrading(workspaces[i]))
  }

  function FailuresOf(details: seq<FailedDetail>): (vs: seq<Violation>)
    ensures |vs| == |details| && forall i :: 0 <= i < |vs| ==> vs[i] == FailedAssertion(details[i])
  {
    seq(|details|, i requires 0 <= i < |details| => FailedAssertion(details[i]))
  }

  /** What one score record contributes. */
  function OfScore(s: CaseScore, minimum: real, slack: real): seq<Violation> {
    match s.score
    case None => [CaseNothingScored(s.runId, s.workspace, s.file)]
    case Some(score) => if Short(score, minimum, slack) then [CaseScoreBelowMinimum(s.runId, s.workspace, s.file)] else []
  }

  function ScoresOf(scores: seq<CaseScore>, minimum: real, slack: real): seq<Violation> {
    if scores == [] then [] else ScoresOf(scores[..|scores| - 1], minimum, slack) + OfScore(scores[|scores| - 1], minimum, slack)
  }

  /** The whole list: one violation for each workspace, failed assertion and score record that is one,
      and each of the others once, check by check. */
  function Violations(e: Evidence, p: Policy, t: Thresholds, slack: real): seq<Violation> {
    Holding(InOrder(Runs), e, p, t, slack)
    + (if p.missingGrading then MissingOf(e.ungradedWorkspaces) else [])
    + (if p.failedAssertions then FailuresOf(e.failed) else [])
    + Holding(InOrder(Rates), e, p, t, slack)
    + (if t.minCaseScore.Some? then ScoresOf(e.scores, t.minCaseScore.value, slack) else [])
    + Holding(InOrder(Budgets), e, p, t, slack)
    + Holding(InOrder(Regressions), e, p, t, slack)
  }

  lemma {:induction false} HoldingIff(vs: seq<Violation>, e: Evidence, p: Policy, t: Thresholds, slack: real)
    ensures forall v :: v in Holding(vs, e, p, t, slack) <==> v in vs && Violates(v, e, p, t, slack)
  {
    hide Violates;
    if vs == [] {
    } else {
      HoldingIff(vs[..|vs| - 1], e, p, t, slack);
      assert vs == vs[..|vs| - 1] + [vs[|vs| - 1]];
    }
  }

  lemma {:induction false} ScoresIff(scores: seq<CaseScore>, minimum: real, slack: real, v: Violation)
    ensures v in ScoresOf(scores, minimum, slack) <==> exists s :: s in scores && v in OfScore(s, minimum, slack)
  {
    hide OfScore;
    if scores == [] {
    } else {
      var init, last := scores[..|scores| - 1], scores[|scores| - 1];
      ScoresIff(init, minimum, slack, v);
      assert scores == init + [last];
    }
  }

  lemma OneOfTheScores(e: Evidence, p: Policy, t: Thresholds, slack: real, v: Violation)
    requires t.minCaseScore.Some?
    ensures v in ScoresOf(e.scores, t.minCaseScore.value, slack) <==> CheckOf(v) == Scores && Violates(v, e, p, t, slack)
  {
    ScoresIff(e.scores, t.minCaseScore.value, slack, v);
    hide ScoresOf;
  }

  lemma OnceEach(v: Violation)
    ensures CheckOf(v) in {Runs, Rates, Budgets, Regressions} ==> v in InOrder(CheckOf(v))
    ensures forall check :: v in InOrder(check) ==> CheckOf(v) == check
  {}

  /** The list holds exactly what is violated. */
  lemma ListedIffViolated(e: Evidence, p: Policy, t: Thresholds, slack: real, v: Violation)
    ensures v in Violations(e, p, t, slack) <==> Violates(v, e, p, t, slack)
  {
    HoldingIff(InOrder(Runs), e, p, t, slack);
    HoldingIff(InOrder(Rates), e, p, t, slack);
    HoldingIff(InOrder(Budgets), e, p, t, slack);
    HoldingIff(InOrder(Regressions), e, p, t, slack);
    if t.minCaseScore.Some? { OneOfTheScores(e, p, t, slack, v); }
    OnceEach(v);
    ListsIffViolated(e, p, t, slack, v);
    hide Violates, Holding, ScoresOf, InOrder;
  }

  lemma ListsIffViolated(e: Evidence, p: Policy, t: Thresholds, slack: real, v: Violation)
    ensures p.missingGrading ==> (v in MissingOf(e.ungradedWorkspaces) <==> v.MissingGrading? && Violates(v, e, p, t, slack))
    ensures p.failedAssertions ==> (v in FailuresOf(e.failed) <==> v.FailedAssertion? && Violates(v, e, p, t, slack))
    ensures !p.missingGrading && v.MissingGrading? ==> !Violates(v, e, p, t, slack)
    ensures !p.failedAssertions && v.FailedAssertion? ==> !Violates(v, e, p, t, slack)
    ensures t.minCaseScore.None? && CheckOf(v) == Scores ==> !Violates(v, e, p, t, slack)
  {
    if v.MissingGrading? && v.ungraded in e.ungradedWorkspaces {
      var i :| 0 <= i < |e.ungradedWorkspaces| && e.ungradedWorkspaces[i] == v.ungraded;
      assert MissingOf(e.ungradedWorkspaces)[i] == v;
    }
    if v.FailedAssertion? && v.detail in e.failed {
      var i :| 0 <= i < |e.failed| && e.failed[i] == v.detail;
      assert FailuresOf(e.failed)[i] == v;
    }
  }

  // ----- the checks -----

  /** One check that adds at most one violation. */
  function Only(holds: bool, v: Violation): seq<Violation> {
    if holds then [v] else []
  }

  lemma HoldingOfThree(a: Violation, b: Violation, c: Violation, e: Evidence, p: Policy, t: Thresholds, slack: real)
    ensures Holding([a], e, p, t, slack) == Only(Violates(a, e, p, t, slack), a)
    ensures Holding([a, b, c], e, p, t, slack) ==
      Only(Violates(a, e, p, t, slack), a) + Only(Violates(b, e, p, t, slack), b) + Only(Violates(c, e, p, t, slack), c)
  {
    hide Violates;
    assert [a, b, c][..2] == [a, b] && [a, b][..1] == [a] && [a][..0] == [];
    var none: seq<Violation> := [];
    assert Holding(none, e, p, t, slack) == [];
    assert Holding([a], e, p, t, slack) == none + Only(Violates(a, e, p, t, slack), a);
    assert Holding([a, b], e, p, t, slack) == Holding([a], e, p, t, slack) + Only(Violates(b, e, p, t, slack), b);
  }

  method CheckRates(e: Evidence, ghost p: Policy, t: Thresholds, slack: real) returns (violations: seq<Violation>)
    ensures violations == Holding(InOrder(Rates), e, p, t, slack)
  {
    var m := e.metrics;
    violations := [];
    HoldingOfThree(PassRateBelowMinimum, NothingScored, Ungraded, e, p, t, slack);
    if t.minPassRate.Some? {
      if m.passRate.None? {
        violations := [NothingScored];
      } else if Short(m.passRate.value, t.minPassRate.value, slack) {
        violations := [PassRateBelowMinimum];
      }
    }
    if m.grading.ungraded > 0 { violations := violations + [Ungraded]; }
  }

  method CheckScores(e: Evidence, minimum: real, slack: real) returns (violations: seq<Violation>)
    ensures violations == ScoresOf(e.scores, minimum, slack)
  {
    violations := [];
    for i := 0 to |e.scores|
      invariant violations == ScoresOf(e.scores[..i], minimum, slack)
    {
      var s := e.scores[i];
      assert e.scores[..i + 1][..i] == e.scores[..i];
      match s.score
      case Some(score) =>
        if Short(score, minimum, slack) {
          violations := violations + [CaseScoreBelowMinimum(s.runId, s.workspace, s.file)];
        }
      case None => violations := violations + [CaseNothingScored(s.runId, s.workspace, s.file)];
    }
    assert e.scores[..|e.scores|] == e.scores;
  }

  method CheckBudgets(e: Evidence, ghost p: Policy, t: Thresholds, ghost slack: real) returns (violations: seq<Violation>)
    ensures violations == Holding(InOrder(Budgets), e, p, t, slack)
  {
    var m := e.metrics;
    HoldingOfThree(TokenBudgetExceeded, InputTokenBudgetExceeded, OutputTokenBudgetExceeded, e, p, t, slack);
    assert InOrder(Budgets)[..3] == [TokenBudgetExceeded, InputTokenBudgetExceeded, OutputTokenBudgetExceeded];
    hide Over;
    violations := Only(Over(m.totalTokens, t.maxTokens), TokenBudgetExceeded);
    violations := violations + Only(Over(m.inputTokens, t.maxInputTokens), InputTokenBudgetExceeded);
    violations := violations + Only(Over(m.outputTokens, t.maxOutputTokens), OutputTokenBudgetExceeded);
    violations := violations + Only(Over(m.maxDurationMs, t.maxDurationMs), DurationExceeded);
  }

  method CheckBaseline(e: Evidence, p: Policy, t: Thresholds, slack: real) returns (violations: seq<Violation>)
    ensures violations == Holding(InOrder(Regressions), e, p, t, slack)
  {
    var m := e.metrics;
    violations := [];
    HoldingOfThree(PassRateRegression, TokenRegression, DurationRegression, e, p, t, slack);
    if t.baseline.Some? {
      var b := t.baseline.value;
      var regressed := m.passRate.Some? && b.passRate.Some? && Short(m.passRate.value, b.passRate.value, slack);
      if p.passRateRegression && regressed { violations := violations + [PassRateRegression]; }
      if p.tokenRegression && m.totalTokens > b.totalTokens { violations := violations + [TokenRegression]; }
      if p.durationRegression && m.maxDurationMs > b.maxDurationMs { violations := violations + [DurationRegression]; }
    }
  }

  method CheckLists(e: Evidence, p: Policy, ghost t: Thresholds, ghost slack: real) returns (violations: seq<Violation>)
    ensures violations == Holding(InOrder(Runs), e, p, t, slack)
      + (if p.missingGrading then MissingOf(e.ungradedWorkspaces) else [])
      + (if p.failedAssertions then FailuresOf(e.failed) else [])
  {
    HoldingOfThree(RunnerFailure, RunnerFailure, RunnerFailure, e, p, t, slack);
    violations := if p.runnerFailure && e.metrics.failedRuns > 0 then [RunnerFailure] else [];
    ghost var runs := violations;
    if p.missingGrading {
      for i := 0 to |e.ungradedWorkspaces|
        invariant violations == runs + MissingOf(e.ungradedWorkspaces[..i])
      {
        violations := violations + [MissingGrading(e.ungradedWorkspaces[i])];
        assert MissingOf(e.ungradedWorkspaces[..i + 1]) ==
          MissingOf(e.ungradedWorkspaces[..i]) + [MissingGrading(e.ungradedWorkspaces[i])];
      }
      assert e.ungradedWorkspaces[..|e.ungradedWorkspaces|] == e.ungradedWorkspaces;
    }
    ghost var missing := violations;
    if p.failedAssertions {
      for i := 0 to |e.failed|
        invariant violations == missing + FailuresOf(e.failed[..i])
      {
        violations := violations + [FailedAssertion(e.failed[i])];
        assert FailuresOf(e.failed[..i + 1]) == FailuresOf(e.failed[..i]) + [FailedAssertion(e.failed[i])];
      }
      assert e.failed[..|e.failed|] == e.failed;
    }
  }

  /** The gate: it reports the whole list, which is exactly what is violated, and passes exactly when
      nothing is. */
  method RunCiChecks(e: Evidence, p: Policy, t: Thresholds, slack: real)
    returns (passed: bool, violations: seq<Violation>)
    ensures violations == Violations(e, p, t, slack)
    ensures forall v :: v in violations <==> Violates(v, e, p, t, slack)
    ensures passed <==> Passes(e, p, t, slack)
  {
    hide Violates, Holding, InOrder, ScoresOf;
    var lists := CheckLists(e, p, t, slack);
    var rates := CheckRates(e, p, t, slack);
    var scores := [];
    if t.minCaseScore.Some? { scores := CheckScores(e, t.minCaseScore.value, slack); }
    var budgets := CheckBudgets(e, p, t, slack);
    var regressions := CheckBaseline(e, p, t, slack);
    violations := lists + rates + scores + budgets + regressions;
    passed := violations == [];
    forall v ensures v in violations <==> Violates(v, e, p, t, slack) { ListedIffViolated(e, p, t, slack, v); }
    assert !passed ==> violations[0] in violations;
  }

  ghost predicate Passes(e: Evidence, p: Policy, t: Thresholds, slack: real) {
    forall v :: !Violates(v, e, p, t, slack)
  }

  // ----- weaker gates pass more -----

  predicate NoMinimumAbove(weak: Option<real>, strong: Option<real>) {
    weak.None? || (strong.Some? && weak.value <= strong.value)
  }

  predicate NoMaximumBelow(weak: Option<U64>, strong: Option<U64>) {
    weak.None? || (strong.Some? && weak.value >= strong.value)
  }

  predicate NoBaselineAbove(weak: Option<Metrics>, strong: Option<Metrics>) {
    || weak.None?
    || (strong.Some?
        && NoMinimumAbove(weak.value.passRate, strong.value.passRate)
        && weak.value.totalTokens >= strong.value.totalTokens
        && weak.value.maxDurationMs >= strong.value.maxDurationMs)
  }

  predicate Weaker(p: Policy, t: Thresholds, strictP: Policy, strictT: Thresholds) {
    && (p.runnerFailure ==> strictP.runnerFailure)
    && (p.failedAssertions ==> strictP.failedAssertions)
    && (p.missingGrading ==> strictP.missingGrading)
    && (p.passRateRegression ==> strictP.passRateRegression)
    && (p.tokenRegression ==> strictP.tokenRegression)
    && (p.durationRegression ==> strictP.durationRegression)
    && NoMinimumAbove(t.minPassRate, strictT.minPassRate)
    && NoMinimumAbove(t.minCaseScore, strictT.minCaseScore)
    && NoMaximumBelow(t.maxTokens, strictT.maxTokens)
    && NoMaximumBelow(t.maxInputTokens, strictT.maxInputTokens)
    && NoMaximumBelow(t.maxOutputTokens, strictT.maxOutputTokens)
    && NoMaximumBelow(t.maxDurationMs, strictT.maxDurationMs)
    && NoBaselineAbove(t.baseline, strictT.baseline)
  }

  /** Whatever a weaker gate reports a stricter one reports too, so passing the stricter gate is
      passing the weaker. */
  lemma GateIsMonotone(e: Evidence, p: Policy, t: Thresholds, strictP: Policy, strictT: Thresholds, slack: real)
    requires Weaker(p, t, strictP, strictT)
    ensures forall v :: Violates(v, e, p, t, slack) ==> Violates(v, e, strictP, strictT, slack)
    ensures Passes(e, strictP, strictT, slack) ==> Passes(e, p, t, slack)
  {
    forall v | Violates(v, e, p, t, slack) ensures Violates(v, e, strictP, strictT, slack) {
      if v.CaseScoreBelowMinimum? {
        var s :| s in e.scores && IsOf(s, v.runId, v.workspace, v.file) && s.score.Some?
                 && Short(s.score.value, t.minCaseScore.value, slack);
        assert Short(s.score.value, strictT.minCaseScore.value, slack);
      }
    }
  }

  // ----- rates, statuses and limits at their edges -----

  /** Exactly the runs that failed, timed out or ran out of budget have failed. */
  lemma ThreeStatusesFail(status: string)
    ensures HasFailed(status) <==> status in ["failed", "timeout", "budget_exhausted"]
  {}

  /** The rate times what was scored is what passed: all of it at a rate of one, none at zero. */
  lemma RateIsPassedOverScored(passed: nat, total: nat)
    ensures PassRate(passed, total).None? <==> total == 0
    ensures total > 0 ==> PassRate(passed, total).value * total as real == passed as real
    ensures total > 0 ==> (PassRate(passed, total) == Some(1.0) <==> passed == total)
  {
    if total > 0 { QuotientTimes(passed as real, total as real); }
  }

  lemma QuotientTimes(x: real, y: real)
    requires y != 0.0
    ensures x / y * y == x
    ensures x / y == 1.0 <==> x == y
  {}

  /** A budget that is met to the last token is kept and one token more breaks it; a rate at its minimum
      passes, and one further below it than the slack does not. */
  lemma LimitsAtTheEdge(n: U64, minimum: real, rate: real, slack: real)
    requires slack >= 0.0
    ensures !Over(n, Some(n)) && !Over(n, None)
    ensures n > 0 ==> Over(n, Some(n - 1))
    ensures !Short(minimum, minimum, slack) && !Short(minimum - slack, minimum, slack)
    ensures rate < minimum - slack ==> Short(rate, minimum, slack)
  {}

  /** The gate passes a report that meets every threshold to the letter, and every threshold it misses
      by one is a violation. */
  lemma BudgetsToTheLetter(e: Evidence, p: Policy, t: Thresholds, slack: real)
    requires t.maxTokens == Some(e.metrics.totalTokens) && t.maxInputTokens == Some(e.metrics.inputTokens)
    requires t.maxOutputTokens == Some(e.metrics.outputTokens) && t.maxDurationMs == Some(e.metrics.maxDurationMs)
    ensures !Violates(TokenBudgetExceeded, e, p, t, slack) && !Violates(InputTokenBudgetExceeded, e, p, t, slack)
    ensures !Violates(OutputTokenBudgetExceeded, e, p, t, slack) && !Violates(DurationExceeded, e, p, t, slack)
    ensures e.metrics.totalTokens > 0 ==>
      Violates(TokenBudgetExceeded, e, p, t.(maxTokens := Some(e.metrics.totalTokens - 1)), slack)
    ensures e.metrics.inputTokens > 0 ==>
      Violates(InputTokenBudgetExceeded, e, p, t.(maxInputTokens := Some(e.metrics.inputTokens - 1)), slack)
    ensures e.metrics.outputTokens > 0 ==>
      Violates(OutputTokenBudgetExceeded, e, p, t.(maxOutputTokens := Some(e.metrics.outputTokens - 1)), slack)
    ensures e.metrics.maxDurationMs > 0 ==>
      Violates(DurationExceeded, e, p, t.(maxDurationMs := Some(e.metrics.maxDurationMs - 1)), slack)
  {}

  // ----- each number by itself -----

  datatype Number = Failed | Skipped | Completed | Files | Results | PassedResults | FailedResults | Unsupported | Excluded
    | UngradedResults | Tokens | Input | Output | Duration

  /** A number of a report, where the readings still have to be clamped. */
  function Said(m: Metrics, n: Number): nat {
    match n
    case Failed => m.failedRuns
    case Skipped => m.skippedRuns
    case Completed => m.completedRuns
    case Files => m.grading.files
    case Results => m.grading.results
    case PassedResults => m.grading.passed
    case FailedResults => m.grading.failed
    case Unsupported => m.grading.unsupported
    case Excluded => m.grading.excluded
    case UngradedResults => m.grading.ungraded
    case Tokens => m.totalTokens
    case Input => m.inputTokens
    case Output => m.outputTokens
    case Duration => m.totalDurationMs
  }

  /** What one run adds to a number. */
  function Brought(r: Run, n: Number): nat {
    match n
    case Failed => Count(r.status in ["failed", "timeout", "budget_exhausted"])
    case Skipped => Count(r.status == "skipped")
    case Completed => Count(r.status == "completed")
    case Files => if r.workspace.Checked? then r.workspace.grading.files else 0
    case Results => if r.workspace.Checked? then r.workspace.grading.results else 0
    case PassedResults => if r.workspace.Checked? then r.workspace.grading.passed else 0
    case FailedResults => if r.workspace.Checked? then r.workspace.grading.failed else 0
    case Unsupported => if r.workspace.Checked? then r.workspace.grading.unsupported else 0
    case Excluded => if r.workspace.Checked? then r.workspace.grading.excluded else 0
    case UngradedResults => if r.workspace.Checked? then r.workspace.grading.ungraded else 0
    case Tokens => if r.totalTokens.Some? then r.totalTokens.value else 0
    case Input => if r.inputTokens.Some? then r.inputTokens.value else 0
    case Output => if r.outputTokens.Some? then r.outputTokens.value else 0
    case Duration => if r.durationMs.Some? then r.durationMs.value else 0
  }

  function BroughtByAll(runs: seq<Run>, n: Number): nat {
    if runs == [] then 0 else BroughtByAll(runs[..|runs| - 1], n) + Brought(runs[|runs| - 1], n)
  }

  function InTally(t: Tally, n: Number): nat {
    match n
    case Failed => t.failed
    case Skipped => t.skipped
    case Completed => t.completed
    case Files => t.grading.files
    case Results => t.grading.results
    case PassedResults => t.grading.passed
    case FailedResults => t.grading.failed
    case Unsupported => t.grading.unsupported
    case Excluded => t.grading.excluded
    case UngradedResults => t.grading.ungraded
    case Tokens => t.tokens
    case Input => t.input
    case Output => t.output
    case Duration => t.duration
  }

  lemma OneIsBrought(r: Run, n: Number)
    ensures InTally(Of(r), n) == Brought(r, n)
  {
    ThreeStatusesFail(r.status);
    hide HasFailed;
  }

  lemma {:induction false} TallyIsBrought(runs: seq<Run>, n: Number)
    ensures Total(runs).runs == |runs| && InTally(Total(runs), n) == BroughtByAll(runs, n)
  {
    if runs == [] {
    } else {
      TallyIsBrought(runs[..|runs| - 1], n);
      OneIsBrought(runs[|runs| - 1], n);
      hide Of, Brought;
    }
  }

  /** Each number of a report is the sum of what the runs have to say for that number, a reading no more
      than 64 bits can hold; and what is scored and passed makes the rate. */
  lemma MetricsAreTheirOwnSums(m: Metrics, runs: seq<Run>, n: Number)
    requires Measures(m, runs)
    ensures m.totalRuns == |runs| && (m.passRate.None? <==> BroughtByAll(runs, Results) == 0)
    ensures m.passRate.Some? ==>
      m.passRate.value * BroughtByAll(runs, Results) as real == BroughtByAll(runs, PassedResults) as real
    ensures
      var sum := BroughtByAll(runs, n);
      Said(m, n) ==
        if (n.Tokens? || n.Input? || n.Output? || n.Duration?) && sum > 0xFFFF_FFFF_FFFF_FFFF
        then 0xFFFF_FFFF_FFFF_FFFF else sum
  {
    TallyIsBrought(runs, n);
    TallyIsBrought(runs, Results);
    TallyIsBrought(runs, PassedResults);
    RateIsPassedOverScored(Total(runs).grading.passed, Total(runs).grading.results);
    hide Total, BroughtByAll, IsLongest, PassRate;
  }
}
