/** The lanes of one pass against its shared ledger. A lane asks for admission, invokes the
    harness once or, after transient failures, several times, records each invocation's cost,
    and takes the next run. Every step is atomic; steps of different lanes interleave freely. */
module LaneProtocol {
  import opened Wrappers
  import opened CostLedger

  /** At most this many lanes run at once. */
  const MAX_LANES: nat := 8

  function ParseConcurrency(lanes: nat): (r: Result<nat>)
    ensures r.Ok? <==> 1 <= lanes <= 8
    ensures r.Ok? ==> r.value == lanes
  {
    if lanes == 0 || lanes > MAX_LANES then Err else Ok(lanes)
  }

  /** As many lanes as are allowed, but none without an item to take. */
  function LanesFor(concurrency: nat, items: nat): (lanes: nat)
    ensures lanes <= concurrency && lanes <= items
    ensures lanes == concurrency || lanes == items
  {
    if concurrency <= items then concurrency else items
  }

  /** `attempts` is one more than the retries a run may take. */
  datatype Config = Config(lanes: nat, attempts: nat, ceiling: Option<CostCeiling>)

  datatype Lane = Idle | Running(left: nat)
  datatype Pass = Pass(spent: nat, lanes: seq<Lane>)

  datatype Event =
    | Start(lane: nat)                           // admitted: the run begins
    | Refused(lane: nat)                         // exhausted: the run is not started
    | Invoke(lane: nat, cost: Option<RunCost>)   // the harness ran, and its cost was recorded
    | Finish(lane: nat)                          // the run is over, its attempts used or not

  function Init(cfg: Config): Pass {
    Pass(0, seq(cfg.lanes, _ => Idle))
  }

  /** The pass after an event, or nothing when the event cannot happen there. */
  function Step(cfg: Config, s: Pass, e: Event): Option<Pass> {
    if e.lane >= |s.lanes| then None
    else
      var lane := s.lanes[e.lane];
      match e
      case Start(i) =>
        if lane.Idle? && Admits(cfg.ceiling, s.spent) then Some(s.(lanes := s.lanes[i := Running(cfg.attempts)])) else None
      case Refused(i) =>
        if lane.Idle? && !Admits(cfg.ceiling, s.spent) then Some(s) else None
      case Invoke(i, cost) =>
        if lane.Running? && lane.left > 0
        then Some(Pass(Add(s.spent, Charge(cost)), s.lanes[i := Running(lane.left - 1)])) else None
      case Finish(i) =>
        if lane.Running? then Some(s.(lanes := s.lanes[i := Idle])) else None
  }

  function Run(cfg: Config, s: Pass, events: seq<Event>): Option<Pass> {
    if events == [] then Some(s)
    else
      match Run(cfg, s, events[..|events| - 1])
      case None => None
      case Some(s') => Step(cfg, s', events[|events| - 1])
  }

  /** The costs a run of the pass recorded, in order. */
  function Costs(events: seq<Event>): seq<Option<RunCost>> {
    if events == [] then []
    else
      var before := Costs(events[..|events| - 1]);
      match events[|events| - 1] case Invoke(_, cost) => before + [cost] case _ => before
  }

  /** No recorded cost charges more than `most` micro-dollars. */
  ghost predicate ChargesAtMost(events: seq<Event>, most: nat) {
    forall i :: 0 <= i < |events| && events[i].Invoke? ==> Charge(events[i].cost) <= most
  }

  // ----- what the lanes in flight may still spend -----

  function Left(lanes: seq<Lane>): nat {
    if lanes == [] then 0
    else Left(lanes[..|lanes| - 1]) + match lanes[|lanes| - 1] case Idle => 0 case Running(left) => left
  }

  function LeftOf(lane: Lane): nat {
    match lane case Idle => 0 case Running(left) => left
  }

  lemma {:induction false} LeftUpdate(lanes: seq<Lane>, i: nat, lane: Lane)
    requires i < |lanes|
    ensures Left(lanes[i := lane]) == Left(lanes) - LeftOf(lanes[i]) + LeftOf(lane)
  {
    var last := |lanes| - 1;
    if i < last {
      LeftUpdate(lanes[..last], i, lane);
      assert lanes[i := lane][..last] == lanes[..last][i := lane];
    } else {
      assert lanes[i := lane][..last] == lanes[..last];
    }
  }

  lemma {:induction false} LeftAtMost(lanes: seq<Lane>, attempts: nat)
    requires forall i :: 0 <= i < |lanes| ==> LeftOf(lanes[i]) <= attempts
    ensures Left(lanes) <= |lanes| * attempts
  {
    if lanes == [] {
    } else {
      LeftAtMost(lanes[..|lanes| - 1], attempts);
      assert |lanes| * attempts == (|lanes| - 1) * attempts + attempts;
    }
  }

  // ----- the bound -----

  /** The ceiling, in micro-dollars. */
  function CeilingMicro(cfg: Config): real
    requires cfg.ceiling.Some?
  {
    cfg.ceiling.value * MICRO_USD_PER_USD
  }

  /** How far past the ceiling the lanes in flight can carry the total. */
  function Overshoot(cfg: Config, most: nat): nat {
    cfg.lanes * cfg.attempts * most
  }

  /** The counter is wide enough for the ceiling and all the runs in flight. */
  ghost predicate Fits(cfg: Config, most: nat) {
    cfg.ceiling.Some? ==> CeilingMicro(cfg) + Overshoot(cfg, most) as real <= U64 as real
  }

  /** Below the ceiling, or past it by no more than what was in flight when it was reached. */
  ghost predicate Bounded(cfg: Config, most: nat, s: Pass) {
    && |s.lanes| == cfg.lanes
    && (forall i :: 0 <= i < |s.lanes| ==> LeftOf(s.lanes[i]) <= cfg.attempts)
    && cfg.ceiling.Some?
    && (s.spent as real < CeilingMicro(cfg)
        || (s.spent + Left(s.lanes) * most) as real < CeilingMicro(cfg) + Overshoot(cfg, most) as real)
  }

  lemma AdmitsBelow(cfg: Config, spent: nat)
    requires cfg.ceiling.Some?
    ensures Admits(cfg.ceiling, spent) <==> spent as real < CeilingMicro(cfg)
  {}

  lemma OvershootCovers(cfg: Config, most: nat, left: nat)
    requires left <= cfg.lanes * cfg.attempts
    ensures left * most <= Overshoot(cfg, most)
  {}

  /** An invocation spends out of what its lane had left. */
  lemma InvokeStaysBounded(cfg: Config, most: nat, s: Pass, i: nat, m: nat)
    requires Bounded(cfg, most, s) && Fits(cfg, most) && m <= most
    requires i < |s.lanes| && s.lanes[i].Running? && s.lanes[i].left > 0
    ensures s.spent + m < U64
    ensures Bounded(cfg, most, Pass(s.spent + m, s.lanes[i := Running(s.lanes[i].left - 1)]))
  {
    var lanes' := s.lanes[i := Running(s.lanes[i].left - 1)];
    LeftUpdate(s.lanes, i, Running(s.lanes[i].left - 1));
    LeftAtMost(s.lanes, cfg.attempts);
    OvershootCovers(cfg, most, Left(s.lanes));
    SpendOne(s.spent, m, most, Left(s.lanes));
  }

  lemma SpendOne(spent: nat, m: nat, most: nat, left: nat)
    requires m <= most && left > 0
    ensures spent + m + (left - 1) * most <= spent + left * most
    ensures spent + m <= spent + left * most
  {}

  lemma FinishStaysBounded(cfg: Config, most: nat, s: Pass, i: nat)
    requires Bounded(cfg, most, s) && i < |s.lanes|
    ensures Bounded(cfg, most, s.(lanes := s.lanes[i := Idle]))
  {
    LeftUpdate(s.lanes, i, Idle);
    assert Left(s.lanes[i := Idle]) * most <= Left(s.lanes) * most;
  }

  lemma StartStaysBounded(cfg: Config, most: nat, s: Pass, i: nat)
    requires Bounded(cfg, most, s) && i < |s.lanes| && Admits(cfg.ceiling, s.spent)
    ensures Bounded(cfg, most, s.(lanes := s.lanes[i := Running(cfg.attempts)]))
  {}

  lemma StepStaysBounded(cfg: Config, most: nat, s: Pass, e: Event)
    requires Bounded(cfg, most, s) && Fits(cfg, most) && Step(cfg, s, e).Some?
    requires e.Invoke? ==> Charge(e.cost) <= most
    ensures Bounded(cfg, most, Step(cfg, s, e).value)
    ensures e.Invoke? ==> Step(cfg, s, e).value.spent == s.spent + Charge(e.cost)
    ensures !e.Invoke? ==> Step(cfg, s, e).value.spent == s.spent
  {
    hide Bounded, Fits, Charge, Admits;
    match e
    case Start(i) => StartStaysBounded(cfg, most, s, i);
    case Refused(i) =>
    case Invoke(i, cost) => InvokeStaysBounded(cfg, most, s, i, Charge(cost));
    case Finish(i) => FinishStaysBounded(cfg, most, s, i);
  }

  /** After any run of the lanes: the counter has not wrapped and holds exactly the charges that
      were recorded. */
  lemma {:induction false} RunStaysBounded(cfg: Config, most: nat, events: seq<Event>)
    requires cfg.ceiling.Some? && Fits(cfg, most)
    requires ChargesAtMost(events, most) && Run(cfg, Init(cfg), events).Some?
    ensures Bounded(cfg, most, Run(cfg, Init(cfg), events).value)
    ensures Run(cfg, Init(cfg), events).value.spent == TotalMicro(Costs(events))
  {
    if events == [] {
    } else {
      var rest, e := events[..|events| - 1], events[|events| - 1];
      RunStaysBounded(cfg, most, rest);
      StepStaysBounded(cfg, most, Run(cfg, Init(cfg), rest).value, e);
      if e.Invoke? { assert Costs(events)[..|Costs(events)| - 1] == Costs(rest); }
    }
  }

  /** However the lanes interleave, spend stays strictly below the ceiling plus, for each lane,
      the most one run may charge over all of its attempts. */
  lemma SpendIsBounded(cfg: Config, most: nat, events: seq<Event>)
    requires cfg.ceiling.Some? && Fits(cfg, most)
    requires ChargesAtMost(events, most) && Run(cfg, Init(cfg), events).Some?
    ensures var spent := Run(cfg, Init(cfg), events).value.spent;
      && spent as real < CeilingMicro(cfg) + Overshoot(cfg, most) as real
      && spent == TotalMicro(Costs(events))
  {
    RunStaysBounded(cfg, most, events);
    BoundedSpend(cfg, most, Run(cfg, Init(cfg), events).value);
  }

  lemma BoundedSpend(cfg: Config, most: nat, s: Pass)
    requires Bounded(cfg, most, s)
    ensures s.spent as real < CeilingMicro(cfg) + Overshoot(cfg, most) as real
  {}

  // ----- exhaustion -----

  lemma {:induction false} RunConcat(cfg: Config, s: Pass, a: seq<Event>, b: seq<Event>)
    ensures Run(cfg, s, a + b) == match Run(cfg, s, a) case None => None case Some(s') => Run(cfg, s', b)
  {
    if b == [] {
      assert a + b == a;
    } else {
      RunConcat(cfg, s, a, b[..|b| - 1]);
      assert (a + b)[..|a + b| - 1] == a + b[..|b| - 1];
    }
  }

  lemma {:induction false} StaysExhausted(cfg: Config, most: nat, s: Pass, later: seq<Event>)
    requires Bounded(cfg, most, s) && Fits(cfg, most) && !Admits(cfg.ceiling, s.spent)
    requires ChargesAtMost(later, most) && Run(cfg, s, later).Some?
    ensures Bounded(cfg, most, Run(cfg, s, later).value)
    ensures !Admits(cfg.ceiling, Run(cfg, s, later).value.spent)
    ensures forall i :: 0 <= i < |later| ==> !later[i].Start?
  {
    if later == [] {
    } else {
      var rest, e := later[..|later| - 1], later[|later| - 1];
      StaysExhausted(cfg, most, s, rest);
      var s' := Run(cfg, s, rest).value;
      StepStaysBounded(cfg, most, s', e);
      AdmitsBelow(cfg, s'.spent);
      AdmitsBelow(cfg, Step(cfg, s', e).value.spent);
      assert forall i :: 0 <= i < |rest| ==> later[i] == rest[i];
    }
  }

  /** Once the ceiling is reached nothing is admitted again, for as long as the pass runs. */
  lemma ExhaustionIsPermanent(cfg: Config, most: nat, events: seq<Event>, later: seq<Event>)
    requires cfg.ceiling.Some? && Fits(cfg, most)
    requires ChargesAtMost(events + later, most) && Run(cfg, Init(cfg), events + later).Some?
    requires Run(cfg, Init(cfg), events).Some? && !Admits(cfg.ceiling, Run(cfg, Init(cfg), events).value.spent)
    ensures !Admits(cfg.ceiling, Run(cfg, Init(cfg), events + later).value.spent)
    ensures forall i :: 0 <= i < |later| ==> !later[i].Start?
  {
    assert forall i :: 0 <= i < |events| ==> (events + later)[i] == events[i];
    assert forall i :: 0 <= i < |later| ==> (events + later)[|events| + i] == later[i];
    RunStaysBounded(cfg, most, events);
    RunConcat(cfg, Init(cfg), events, later);
    StaysExhausted(cfg, most, Run(cfg, Init(cfg), events).value, later);
  }

  // ----- the overshoot is reached -----

  function Cost(micro: nat): Option<RunCost> {
    Some(Priced(Finite(Usd(micro))))
  }

  lemma CostCharges(micro: nat)
    requires micro < U64
    ensures Charge(Cost(micro)) == micro
  {}

  /** Some run of the pass, none of its costs above `most`, leads here. */
  ghost predicate Reachable(cfg: Config, most: nat, s: Pass) {
    exists events :: ChargesAtMost(events, most) && Run(cfg, Init(cfg), events) == Some(s)
  }

  lemma ReachedBy(cfg: Config, most: nat, events: seq<Event>, s: Pass)
    requires ChargesAtMost(events, most) && Run(cfg, Init(cfg), events) == Some(s)
    ensures Reachable(cfg, most, s)
  {}

  lemma NothingRun(cfg: Config, most: nat)
    ensures Reachable(cfg, most, Init(cfg))
  {
    var none: seq<Event> := [];
    assert ChargesAtMost(none, most) && Run(cfg, Init(cfg), none) == Some(Init(cfg));
    ReachedBy(cfg, most, none, Init(cfg));
  }

  lemma ReachNext(cfg: Config, most: nat, s: Pass, e: Event)
    requires Reachable(cfg, most, s) && Step(cfg, s, e).Some? && (e.Invoke? ==> Charge(e.cost) <= most)
    ensures Reachable(cfg, most, Step(cfg, s, e).value)
  {
    hide Step, Charge;
    var events :| ChargesAtMost(events, most) && Run(cfg, Init(cfg), events) == Some(s);
    var more := events + [e];
    assert more[..|more| - 1] == events;
    assert Run(cfg, Init(cfg), more) == Step(cfg, s, e);
    ReachedBy(cfg, most, more, Step(cfg, s, e).value);
  }

  lemma ReachStart(cfg: Config, most: nat, s: Pass, i: nat)
    requires Reachable(cfg, most, s) && i < |s.lanes| && s.lanes[i].Idle? && Admits(cfg.ceiling, s.spent)
    ensures Reachable(cfg, most, s.(lanes := s.lanes[i := Running(cfg.attempts)]))
  {
    hide Reachable;
    ReachNext(cfg, most, s, Start(i));
  }

  lemma ReachInvoke(cfg: Config, most: nat, s: Pass, i: nat)
    requires Reachable(cfg, most, s) && i < |s.lanes| && s.lanes[i].Running? && s.lanes[i].left > 0
    requires s.spent + most < U64
    ensures Reachable(cfg, most, Pass(s.spent + most, s.lanes[i := Running(s.lanes[i].left - 1)]))
  {
    hide Reachable, Cost;
    CostCharges(most);
    ReachNext(cfg, most, s, Invoke(i, Cost(most)));
  }

  lemma ReachFinish(cfg: Config, most: nat, s: Pass, i: nat)
    requires Reachable(cfg, most, s) && i < |s.lanes| && s.lanes[i].Running?
    ensures Reachable(cfg, most, s.(lanes := s.lanes[i := Idle]))
  {
    hide Reachable;
    ReachNext(cfg, most, s, Finish(i));
  }

  lemma OneMore(k: nat, d: nat)
    requires k > 0
    ensures k * d == (k - 1) * d + d
  {}

  /** One lane alone can bring the total to any number of charges that starts below the ceiling. */
  lemma {:induction false} OneLaneSpends(cfg: Config, most: nat, n: nat)
    requires cfg.lanes >= 1 && cfg.attempts >= 1 && cfg.ceiling.Some?
    requires n * most < U64 && (n * most) as real < CeilingMicro(cfg)
    ensures Reachable(cfg, most, Pass(n * most, Init(cfg).lanes))
    decreases n
  {
    hide Reachable, Admits;
    if n == 0 {
      NothingRun(cfg, most);
    } else {
      OneMore(n, most);
      OneLaneSpends(cfg, most, n - 1);
      var s := Pass((n - 1) * most, Init(cfg).lanes);
      AdmitsBelow(cfg, s.spent);
      ReachStart(cfg, most, s, 0);
      var s1 := s.(lanes := s.lanes[0 := Running(cfg.attempts)]);
      ReachInvoke(cfg, most, s1, 0);
      var s2 := Pass(n * most, s1.lanes[0 := Running(cfg.attempts - 1)]);
      ReachFinish(cfg, most, s2, 0);
      assert s2.lanes[0 := Idle] == s.lanes;
    }
  }

  /** The first `k` lanes are running, with all their attempts left. */
  function Started(cfg: Config, k: nat): (lanes: seq<Lane>)
    ensures |lanes| == cfg.lanes
  {
    seq(cfg.lanes, i => if i < k then Running(cfg.attempts) else Idle)
  }

  lemma {:induction false} AllStart(cfg: Config, most: nat, spent: nat, k: nat)
    requires k <= cfg.lanes && Admits(cfg.ceiling, spent) && Reachable(cfg, most, Pass(spent, Init(cfg).lanes))
    ensures Reachable(cfg, most, Pass(spent, Started(cfg, k)))
    decreases k
  {
    hide Reachable, Admits;
    if k == 0 {
      assert Started(cfg, 0) == Init(cfg).lanes;
    } else {
      AllStart(cfg, most, spent, k - 1);
      var s := Pass(spent, Started(cfg, k - 1));
      ReachStart(cfg, most, s, k - 1);
      assert s.lanes[k - 1 := Running(cfg.attempts)] == Started(cfg, k);
    }
  }

  /** The first `k` lanes have used up their attempts, and lane `k` has used `used` of its own. */
  function Used(cfg: Config, k: nat, used: nat): (lanes: seq<Lane>)
    requires used <= cfg.attempts
    ensures |lanes| == cfg.lanes
  {
    seq(cfg.lanes, i => if i < k then Running(0) else if i == k then Running(cfg.attempts - used) else Running(cfg.attempts))
  }

  /** What `k` lanes that used all their attempts, and one that used `used`, have been charged. */
  function Charges(cfg: Config, most: nat, k: nat, used: nat): nat {
    (k * cfg.attempts + used) * most
  }

  lemma ChargesStep(cfg: Config, most: nat, k: nat, used: nat)
    requires used > 0
    ensures Charges(cfg, most, k, used) == Charges(cfg, most, k, used - 1) + most
  {
    OneMore(k * cfg.attempts + used, most);
  }

  lemma ChargesCarry(cfg: Config, most: nat, k: nat)
    requires k > 0
    ensures Charges(cfg, most, k, 0) == Charges(cfg, most, k - 1, cfg.attempts)
  {
    OneMore(k, cfg.attempts);
  }

  lemma ChargesFit(cfg: Config, most: nat, k: nat, used: nat)
    requires used <= cfg.attempts && (k < cfg.lanes || (k == cfg.lanes && used == 0))
    ensures Charges(cfg, most, k, used) <= Overshoot(cfg, most)
  {
    if k < cfg.lanes {
      assert (k + 1) * cfg.attempts <= cfg.lanes * cfg.attempts;
      assert k * cfg.attempts + used <= (k + 1) * cfg.attempts;
      TimesGrows(k * cfg.attempts + used, cfg.lanes * cfg.attempts, most);
    }
  }

  lemma TimesGrows(x: nat, y: nat, d: nat)
    requires x <= y
    ensures x * d <= y * d
  {}

  lemma {:induction false} AllInvoke(cfg: Config, most: nat, spent: nat, k: nat, used: nat)
    requires used <= cfg.attempts && cfg.attempts >= 1 && (k < cfg.lanes || (k == cfg.lanes && used == 0))
    requires spent + Overshoot(cfg, most) < U64
    requires Reachable(cfg, most, Pass(spent, Started(cfg, cfg.lanes)))
    ensures Reachable(cfg, most, Pass(spent + Charges(cfg, most, k, used), Used(cfg, k, used)))
    decreases k, used
  {
    hide Reachable, Started, Charges, Overshoot;
    ChargesFit(cfg, most, k, used);
    if k == 0 && used == 0 {
      NothingUsed(cfg, most);
    } else if used == 0 {
      ChargesCarry(cfg, most, k);
      AllInvoke(cfg, most, spent, k - 1, cfg.attempts);
      assert Used(cfg, k - 1, cfg.attempts) == Used(cfg, k, 0);
    } else {
      AllInvoke(cfg, most, spent, k, used - 1);
      ChargesStep(cfg, most, k, used);
      var s := Pass(spent + Charges(cfg, most, k, used - 1), Used(cfg, k, used - 1));
      ReachInvoke(cfg, most, s, k);
      assert s.lanes[k := Running(s.lanes[k].left - 1)] == Used(cfg, k, used);
    }
  }

  lemma NothingUsed(cfg: Config, most: nat)
    ensures Used(cfg, 0, 0) == Started(cfg, cfg.lanes) && Charges(cfg, most, 0, 0) == 0
  {}

  /** The last number of whole charges below a ceiling. */
  lemma ChargesBelow(ceiling: real, most: nat) returns (n: nat)
    requires ceiling > 0.0 && most >= 1
    ensures (n * most) as real < ceiling <= ((n + 1) * most) as real
  {
    n := 0;
    while ceiling > ((n + 1) * most) as real
      invariant (n * most) as real < ceiling
      decreases ceiling.Floor + 1 - n
    {
      assert n + 1 <= (n + 1) * most;
      n := n + 1;
    }
  }

  /** The bound on spend is tight: with every lane in flight just below the ceiling and every attempt
      used, a pass ends within one charge of it. */
  lemma OvershootIsReached(cfg: Config, most: nat)
    requires cfg.lanes >= 1 && cfg.attempts >= 1 && cfg.ceiling.Some? && most >= 1 && Fits(cfg, most)
    ensures exists s :: Reachable(cfg, most, s) && s.spent as real >= CeilingMicro(cfg) + (Overshoot(cfg, most) - most) as real
  {
    hide Reachable, Started, Used;
    assert most <= Overshoot(cfg, most) by {
      assert 1 <= cfg.lanes * cfg.attempts;
    }
    var n := ChargesBelow(CeilingMicro(cfg), most);
    OneLaneSpends(cfg, most, n);
    AdmitsBelow(cfg, n * most);
    AllStart(cfg, most, n * most, cfg.lanes);
    AllInvoke(cfg, most, n * most, cfg.lanes, 0);
    var s := Pass(n * most + Charges(cfg, most, cfg.lanes, 0), Used(cfg, cfg.lanes, 0));
    assert (n + 1) * most == n * most + most;
  }

  /** Every run keeps spend below the ceiling plus one charge for each lane. */
  ghost predicate OneChargePerLane(cfg: Config, most: nat)
    requires cfg.ceiling.Some?
  {
    forall s :: Reachable(cfg, most, s) ==> s.spent as real < CeilingMicro(cfg) + (cfg.lanes * most) as real
  }

  lemma RetriesCostMore(cfg: Config, most: nat)
    requires cfg.lanes >= 1 && cfg.attempts >= 2
    ensures Overshoot(cfg, most) >= cfg.lanes * most + most
  {
    var k := cfg.lanes;
    assert k * 2 <= k * cfg.attempts;
    assert (k * 2) * most <= k * cfg.attempts * most;
    assert (k * 2) * most == k * most + k * most;
    assert most <= k * most;
  }

  /** A pass overshoots by at most one charge for each lane exactly when no run is retried, or runs
      cost nothing: a retry records a second charge that no admission was asked for. */
  lemma OneChargePerLaneIffNoRetries(cfg: Config, most: nat)
    requires cfg.lanes >= 1 && cfg.attempts >= 1 && cfg.ceiling.Some? && Fits(cfg, most)
    ensures OneChargePerLane(cfg, most) <==> cfg.attempts == 1 || most == 0
  {
    hide Run;
    if cfg.attempts == 1 || most == 0 {
      forall s | Reachable(cfg, most, s) ensures s.spent as real < CeilingMicro(cfg) + (cfg.lanes * most) as real {
        var events :| ChargesAtMost(events, most) && Run(cfg, Init(cfg), events) == Some(s);
        SpendIsBounded(cfg, most, events);
      }
    } else {
      OvershootIsReached(cfg, most);
      RetriesCostMore(cfg, most);
    }
  }
}
