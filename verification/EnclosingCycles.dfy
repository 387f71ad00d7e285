/** Cycles of references that pass through the deepest module enclosing them: when the lint
    reports something for them, and when it does not. */
module EnclosingCycles {
  import opened DepthFirstSearch
  import opened ModuleTree
  import opened AcyclicModules

  ghost predicate Reported(reports: map<DefId, seq<seq<DefId>>>, p: DefId) {
    p in reports && reports[p] != []
  }

  /** A module has something to report exactly when references go round a ring of its children. */
  lemma ReportedIffWitnessed(t: Crate, references: seq<Reference>, reports: map<DefId, seq<seq<DefId>>>, p: DefId)
    requires t.WellFormed() && Answers(t, references, reports)
    ensures Reported(reports, p) <==> exists c :: Witnessed(t, references, p, c)
  {
    hide Witnessed;
    if Reported(reports, p) {
      assert reports[p][0] in reports[p];
    }
    if c :| Witnessed(t, references, p, c) {
      assert MeetsOneOf(c, reports[p]);
    }
  }

  /** The references of one ring: from each module to the next and from the last to the first. */
  function Ring(ms: seq<DefId>): (r: seq<Reference>)
    ensures |r| == |ms| && forall i :: 0 <= i < |ms| ==> r[i] == Reference(ms[i], ms[Around(|ms|, i)])
  {
    seq(|ms|, i requires 0 <= i < |ms| => Reference(ms[i], ms[Around(|ms|, i)]))
  }

  lemma RingIsACycle(ms: seq<DefId>)
    requires ms != []
    ensures ReferenceCycle(Ring(ms), ms)
  {
    forall i | 0 <= i < |ms| ensures Reference(ms[i], ms[Around(|ms|, i)]) in Ring(ms) {
      assert Ring(ms)[i] in Ring(ms);
    }
  }

  // ----- which edges a reference makes under one module -----

  /** The module itself joins no two of its children. */
  lemma TopNeverJoins(t: Crate, r: Reference, a: DefId, e: SiblingEdge)
    requires t.WellFormed()
    ensures JoinsSiblings(t, r, a, e) ==> r.source != a && r.target != a
  {
    if JoinsSiblings(t, r, a, e) {
      ChildOnChain(t, r.source, a, e.from);
      ChildOnChain(t, r.target, a, e.to);
    }
  }

  ghost predicate Makes(t: Crate, references: seq<Reference>, a: DefId, e: SiblingEdge)
    requires t.WellFormed()
  {
    exists r :: r in references && JoinsSiblings(t, r, a, e)
  }

  lemma OffTopMakesTheSame(t: Crate, references: seq<Reference>, a: DefId, e: SiblingEdge)
    requires t.WellFormed()
    ensures Makes(t, references, a, e) <==> Makes(t, OffTop(references, a), a, e)
  {
    hide JoinsSiblings, OffTop;
    if r :| r in references && JoinsSiblings(t, r, a, e) {
      TopNeverJoins(t, r, a, e);
      OffTopMembers(references, a, r);
    }
    if r :| r in OffTop(references, a) && JoinsSiblings(t, r, a, e) {
      OffTopMembers(references, a, r);
    }
  }

  lemma WitnessedByEdges(t: Crate, references: seq<Reference>, a: DefId, c: seq<DefId>)
    requires t.WellFormed()
    ensures Witnessed(t, references, a, c) <==>
      |c| > 1 && forall i :: 0 <= i < |c| ==> Makes(t, references, a, SiblingEdge(c[i], c[Around(|c|, i)]))
  {
    hide JoinsSiblings;
    if |c| > 1 && forall i :: 0 <= i < |c| ==> Makes(t, references, a, SiblingEdge(c[i], c[Around(|c|, i)])) {
      forall i | 0 <= i < |c|
        ensures exists r :: r in references && JoinsSiblings(t, r, a, SiblingEdge(c[i], c[Around(|c|, i)]))
      {
        assert Makes(t, references, a, SiblingEdge(c[i], c[Around(|c|, i)]));
      }
    }
  }

  /** Only the references between modules other than `a` count under `a`. */
  lemma OnlyStepsOffTheTopCount(t: Crate, references: seq<Reference>, a: DefId, c: seq<DefId>)
    requires t.WellFormed()
    ensures Witnessed(t, references, a, c) <==> Witnessed(t, OffTop(references, a), a, c)
  {
    WitnessedByEdges(t, references, a, c);
    WitnessedByEdges(t, OffTop(references, a), a, c);
    hide Makes, OffTop, Witnessed;
    forall i | 0 <= i < |c|
      ensures
        var e := SiblingEdge(c[i], c[Around(|c|, i)]);
        Makes(t, references, a, e) <==> Makes(t, OffTop(references, a), a, e)
    {
      OffTopMakesTheSame(t, references, a, SiblingEdge(c[i], c[Around(|c|, i)]));
    }
  }

  function OffTop(references: seq<Reference>, a: DefId): seq<Reference> {
    if references == [] then []
    else (if references[0].source != a && references[0].target != a then [references[0]] else []) + OffTop(references[1..], a)
  }

  lemma {:induction false} OffTopMembers(references: seq<Reference>, a: DefId, r: Reference)
    ensures r in OffTop(references, a) <==> r in references && r.source != a && r.target != a
  {
    if references == [] {
    } else {
      OffTopMembers(references[1..], a, r);
      assert references == [references[0]] + references[1..];
    }
  }

  /** A ring through `a` has a report under `a` exactly when its own steps between other modules go
      round a ring of children of `a`. */
  lemma RingIsReportedIffItsOtherSteps(t: Crate, ms: seq<DefId>, a: DefId, reports: map<DefId, seq<seq<DefId>>>)
    requires t.WellFormed() && Answers(t, Ring(ms), reports)
    ensures Reported(reports, a) <==> exists c :: Witnessed(t, OffTop(Ring(ms), a), a, c)
  {
    hide Witnessed, Answers, OffTop;
    ReportedIffWitnessed(t, Ring(ms), reports, a);
    if c :| Witnessed(t, Ring(ms), a, c) { OnlyStepsOffTheTopCount(t, Ring(ms), a, c); }
    if c :| Witnessed(t, OffTop(Ring(ms), a), a, c) { OnlyStepsOffTheTopCount(t, Ring(ms), a, c); }
  }

  // ----- a ring that passes through its top once -----

  /** Some child is left for another one and entered again. */
  ghost predicate Returns(ss: seq<DefId>) {
    exists i, j, l :: 0 <= i < j < l < |ss| && ss[i] == ss[l] && ss[j] != ss[i]
  }

  ghost predicate Below(t: Crate, a: DefId, walk: seq<DefId>)
    requires t.WellFormed()
  {
    forall i :: 0 <= i < |walk| ==> Within(t, walk[i], a) && walk[i] != a
  }

  /** The walk steps from one child of its top to another. */
  ghost predicate StepsTo(ss: seq<DefId>, u: DefId, v: DefId) {
    u != v && exists k :: 0 <= k < |ss| - 1 && ss[k] == u && ss[k + 1] == v
  }

  lemma StepMakesTheEdge(t: Crate, a: DefId, walk: seq<DefId>, k: nat)
    requires t.WellFormed() && a in t.modules && Below(t, a, walk) && k + 1 < |walk|
    ensures
      var u, v := Project(t, a, walk)[k], Project(t, a, walk)[k + 1];
      u != v ==> Makes(t, Ring([a] + walk), a, SiblingEdge(u, v))
  {
    hide Within;
    var u, v, r := Project(t, a, walk)[k], Project(t, a, walk)[k + 1], Reference(walk[k], walk[k + 1]);
    assert Ring([a] + walk)[k + 1] == r;
    if u != v {
      assert JoinsSiblings(t, r, a, SiblingEdge(u, v));
    }
  }

  lemma EdgeIsAStep(t: Crate, a: DefId, walk: seq<DefId>, i: nat, u: DefId, v: DefId)
    requires t.WellFormed() && a in t.modules && Below(t, a, walk)
    requires i <= |walk| && JoinsSiblings(t, Ring([a] + walk)[i], a, SiblingEdge(u, v))
    ensures StepsTo(Project(t, a, walk), u, v)
  {
    var ms, ss := [a] + walk, Project(t, a, walk);
    var r := Ring(ms)[i];
    TopNeverJoins(t, r, a, SiblingEdge(u, v));
    assert r.source == ms[i] && r.target == ms[Around(|ms|, i)];
    assert 0 < i < |ms| - 1;
    hide Chain, Ring;
    ChildOnChain(t, r.source, a, u);
    ChildOnChain(t, r.target, a, v);
    ChildOnChain(t, r.source, a, ss[i - 1]);
    ChildOnChain(t, r.target, a, ss[i]);
    assert ss[i - 1] == u && ss[i - 1 + 1] == v;
  }

  /** The edges under `a` of a ring through it are the steps of the rest of the ring from one child
      of `a` to another. */
  lemma EdgesOfTheWalk(t: Crate, a: DefId, walk: seq<DefId>, u: DefId, v: DefId)
    requires t.WellFormed() && a in t.modules && Below(t, a, walk)
    ensures Makes(t, Ring([a] + walk), a, SiblingEdge(u, v)) <==> StepsTo(Project(t, a, walk), u, v)
  {
    hide JoinsSiblings, Within;
    var ss, references := Project(t, a, walk), Ring([a] + walk);
    if Makes(t, references, a, SiblingEdge(u, v)) {
      var r :| r in references && JoinsSiblings(t, r, a, SiblingEdge(u, v));
      var i :| 0 <= i < |references| && references[i] == r;
      EdgeIsAStep(t, a, walk, i, u, v);
    }
    if StepsTo(ss, u, v) {
      var k :| 0 <= k < |ss| - 1 && ss[k] == u && ss[k + 1] == v;
      StepMakesTheEdge(t, a, walk, k);
    }
  }

  function First(ss: seq<DefId>, x: DefId): (k: nat)
    ensures k <= |ss| && (k < |ss| ==> ss[k] == x) && forall i :: 0 <= i < k ==> ss[i] != x
  {
    if ss == [] || ss[0] == x then 0 else
      assert forall i :: 0 < i < |ss| ==> ss[i] == ss[1..][i - 1];
      1 + First(ss[1..], x)
  }

  /** Where no child is entered again, every step enters its child for the first time. */
  lemma StepsGoForward(ss: seq<DefId>, u: DefId, v: DefId)
    requires !Returns(ss) && StepsTo(ss, u, v)
    ensures First(ss, u) < First(ss, v)
  {
    var k :| 0 <= k < |ss| - 1 && ss[k] == u && ss[k + 1] == v;
    forall i | 0 <= i <= k ensures ss[i] != v {
      assert i < k ==> i < k < k + 1 < |ss|;
    }
  }

  lemma {:induction false} GoingForward(ss: seq<DefId>, c: seq<DefId>, i: nat)
    requires i < |c|
    requires forall j :: 0 <= j < |c| ==> First(ss, c[j]) < First(ss, c[Around(|c|, j)])
    ensures First(ss, c[0]) + i <= First(ss, c[i])
  {
    hide First;
    if i == 0 {
    } else {
      GoingForward(ss, c, i - 1);
      assert First(ss, c[i - 1]) < First(ss, c[Around(|c|, i - 1)]);
    }
  }

  lemma NoRingGoesForward(ss: seq<DefId>, c: seq<DefId>)
    requires c != []
    ensures exists j :: 0 <= j < |c| && First(ss, c[j]) >= First(ss, c[Around(|c|, j)])
  {
    hide First;
    if forall j :: 0 <= j < |c| - 1 ==> First(ss, c[j]) < First(ss, c[Around(|c|, j)]) {
      var last := |c| - 1;
      if First(ss, c[last]) < First(ss, c[Around(|c|, last)]) {
        GoingForward(ss, c, last);
      }
    }
  }

  lemma WitnessedReturns(t: Crate, a: DefId, walk: seq<DefId>, c: seq<DefId>)
    requires t.WellFormed() && a in t.modules && Below(t, a, walk) && Witnessed(t, Ring([a] + walk), a, c)
    ensures Returns(Project(t, a, walk))
  {
    WitnessedByEdges(t, Ring([a] + walk), a, c);
    hide Makes, First, Returns, Witnessed, Ring, StepsTo;
    var ss := Project(t, a, walk);
    NoRingGoesForward(ss, c);
    var j :| 0 <= j < |c| && First(ss, c[j]) >= First(ss, c[Around(|c|, j)]);
    EdgesOfTheWalk(t, a, walk, c[j], c[Around(|c|, j)]);
    assert StepsTo(ss, c[j], c[Around(|c|, j)]);
    ReturnsOrForward(ss, c[j], c[Around(|c|, j)]);
  }

  lemma ReturnsOrForward(ss: seq<DefId>, u: DefId, v: DefId)
    requires StepsTo(ss, u, v)
    ensures Returns(ss) || First(ss, u) < First(ss, v)
  {
    if !Returns(ss) { StepsGoForward(ss, u, v); }
  }

  lemma StepIsAnEdge(t: Crate, a: DefId, walk: seq<DefId>, k: nat)
    requires t.WellFormed() && a in t.modules && Below(t, a, walk) && k + 1 < |walk|
    ensures
      var u, v := Project(t, a, walk)[k], Project(t, a, walk)[k + 1];
      u == v || Edge(GraphOf(EdgesUnder(t, Ring([a] + walk), a)), u, v)
  {
    hide JoinsSiblings, EdgesUnder, Within, Ring, Project, Edge, GraphOf;
    StepMakesTheEdge(t, a, walk, k);
    var u, v := Project(t, a, walk)[k], Project(t, a, walk)[k + 1];
    EdgeUnderHasReference(t, Ring([a] + walk), a, SiblingEdge(u, v));
  }

  lemma ReturningIsWitnessed(t: Crate, a: DefId, walk: seq<DefId>) returns (c: seq<DefId>)
    requires t.WellFormed() && a in t.modules && Below(t, a, walk) && Returns(Project(t, a, walk))
    ensures Witnessed(t, Ring([a] + walk), a, c)
  {
    hide JoinsSiblings, EdgesUnder, Within, Ring, IsCycle, Project, Witnessed, Edge, GraphOf;
    var ss, references := Project(t, a, walk), Ring([a] + walk);
    var g := GraphOf(EdgesUnder(t, references, a));
    var i, j, l :| 0 <= i < j < l < |ss| && ss[i] == ss[l] && ss[j] != ss[i];
    var ring := ss[i..l];
    forall k | 0 <= k < |ring| ensures var n := Around(|ring|, k); ring[k] == ring[n] || Edge(g, ring[k], ring[n]) {
      var n := Around(|ring|, k);
      assert ring[k] == ss[i + k] && ring[n] == ss[i + k + 1];
      StepIsAnEdge(t, a, walk, i + k);
    }
    assert ring[j - i] != ring[0];
    c := Destutter(g, ring);
    CycleIsWitnessed(t, references, g, a, c);
  }

  /** A ring that passes once through the module enclosing it is reported there exactly when the rest
      of it leaves some child of that module for another one and comes back to it. */
  lemma RingThroughItsTop(t: Crate, a: DefId, walk: seq<DefId>, reports: map<DefId, seq<seq<DefId>>>)
    requires t.WellFormed() && a in t.modules && Below(t, a, walk)
    requires Answers(t, Ring([a] + walk), reports)
    ensures Reported(reports, a) <==> Returns(Project(t, a, walk))
  {
    hide Witnessed, Returns, Answers;
    ReportedIffWitnessed(t, Ring([a] + walk), reports, a);
    if Returns(Project(t, a, walk)) {
      var c := ReturningIsWitnessed(t, a, walk);
    }
    if c :| Witnessed(t, Ring([a] + walk), a, c) {
      WitnessedReturns(t, a, walk, c);
    }
  }

  /** A module and one below it that refer to each other are a cycle of references closing under the
      module, and nothing is reported for it. */
  lemma ParentAndChildGoUnreported(t: Crate, a: DefId, m: DefId, reports: map<DefId, seq<seq<DefId>>>)
    requires t.WellFormed() && a in t.modules && Within(t, m, a) && m != a
    requires Answers(t, Ring([a, m]), reports)
    ensures ReferenceCycle(Ring([a, m]), [a, m]) && DeepestCommon(t, [a, m], a)
    ensures !Reported(reports, a)
  {
    RingIsACycle([a, m]);
    ChainSteps(t, a);
    hide Chain, Answers;
    assert Within(t, a, a);
    assert DeepestCommon(t, [a, m], a) by {
      assert [a, m][0] == a && [a, m][1] == m;
    }
    assert [a] + [m] == [a, m];
    RingThroughItsTop(t, a, [m], reports);
  }

  /** The smallest such crate: a root and one module in it. */
  lemma TwoModulesGoUnreported(reports: map<DefId, seq<seq<DefId>>>)
    requires Answers(Crate(map[1 := 0], {0, 1}), Ring([0, 1]), reports)
    ensures !Reported(reports, 0)
  {
    var t := Crate(map[1 := 0], {0, 1});
    assert Chain(t, 0) == [0] && Chain(t, 1) == [0, 1];
    ParentAndChildGoUnreported(t, 0, 1, reports);
  }
}
