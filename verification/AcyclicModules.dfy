/** The lint as a whole: references in, one list of cycles per module out. */
module AcyclicModules {
  import opened Sorting
  import opened DepthFirstSearch
  import opened CycleReports
  import opened ModuleTree
  import opened SimpleCycles

  // ----- grouping references under the module that owns them -----

  /** The edges that references put under `p`, in the order they were recorded. */
  function EdgesUnder(t: Crate, references: seq<Reference>, p: DefId): seq<SiblingEdge>
    requires t.WellFormed()
  {
    if references == [] then []
    else
      var before := EdgesUnder(t, references[..|references| - 1], p);
      match SiblingOf(t, references[|references| - 1])
      case Some((owner, e)) => if owner == p then before + [e] else before
      case None => before
  }

  lemma {:induction false} EdgeUnderHasReference(t: Crate, references: seq<Reference>, p: DefId, e: SiblingEdge)
    requires t.WellFormed()
    ensures e in EdgesUnder(t, references, p) <==> exists r :: r in references && JoinsSiblings(t, r, p, e)
  {
    if references == [] {
    } else {
      var last := references[|references| - 1];
      var rest := references[..|references| - 1];
      EdgeUnderHasReference(t, rest, p, e);
      SiblingIffJoins(t, last, p, e);
      assert references == rest + [last];
      hide JoinsSiblings, SiblingOf;
      assert forall r :: r in references <==> r in rest || r == last;
    }
  }

  lemma NoEdgesUnder(t: Crate, references: seq<Reference>, p: DefId)
    requires t.WellFormed() && references == []
    ensures EdgesUnder(t, references, p) == []
  {}

  lemma EdgesUnderStep(t: Crate, references: seq<Reference>, i: nat, p: DefId)
    requires t.WellFormed() && i < |references|
    ensures
      var before, after := EdgesUnder(t, references[..i], p), EdgesUnder(t, references[..i + 1], p);
      match SiblingOf(t, references[i])
      case Some((owner, e)) => after == if owner == p then before + [e] else before
      case None => after == before
  {
    hide SiblingOf;
    assert references[..i + 1][..i] == references[..i];
  }

  method BuildSiblingGraphs(t: Crate, references: seq<Reference>) returns (graphs: map<DefId, seq<SiblingEdge>>)
    requires t.WellFormed()
    ensures forall p :: p in graphs <==> EdgesUnder(t, references, p) != []
    ensures forall p :: p in graphs ==> graphs[p] == EdgesUnder(t, references, p)
  {
    hide SiblingOf, EdgesUnder;
    graphs := map[];
    forall p ensures EdgesUnder(t, references[..0], p) == [] { NoEdgesUnder(t, references[..0], p); }
    for i := 0 to |references|
      invariant forall p :: p in graphs <==> EdgesUnder(t, references[..i], p) != []
      invariant forall p :: p in graphs ==> graphs[p] == EdgesUnder(t, references[..i], p)
    {
      forall p { EdgesUnderStep(t, references, i, p); }
      match SiblingOf(t, references[i]) {
        case Some((parent, edge)) =>
          var sofar := if parent in graphs then graphs[parent] else [];
          graphs := graphs[parent := sofar + [edge]];
        case None =>
      }
    }
    assert references[..|references|] == references;
  }

  // ----- one sibling graph -----

  ghost predicate Endpoint(edges: seq<SiblingEdge>, n: DefId) {
    exists e :: e in edges && (n == e.from || n == e.to)
  }

  /** The adjacency carries exactly the edges, once each, over exactly their endpoints. */
  ghost predicate Carries(g: Graph<DefId>, nodes: seq<DefId>, edges: seq<SiblingEdge>) {
    && (forall u, v :: Edge(g, u, v) <==> SiblingEdge(u, v) in edges)
    && (forall n :: n in nodes <==> Endpoint(edges, n))
    && (forall n :: n in g <==> n in nodes)
    && Distinct(nodes) && DuplicateFree(g)
  }

  method Enumerate(s: set<DefId>) returns (r: seq<DefId>)
    ensures Distinct(r) && forall n :: n in r <==> n in s
  {
    r := [];
    var left := s;
    while left != {}
      invariant left <= s && Distinct(r) && forall n :: n in r <==> n in s && n !in left
    {
      var n :| n in left;
      r := r + [n];
      left := left - {n};
    }
  }

  method ListNodes(edges: seq<SiblingEdge>, name: DefId -> seq<nat>) returns (nodes: seq<DefId>)
    ensures forall n :: n in nodes <==> Endpoint(edges, n)
    ensures Distinct(nodes) && SortedBy(ByKey(name), nodes)
  {
    ByKeyIsPreorder(name);
    var endpoints := (set e | e in edges :: e.from) + (set e | e in edges :: e.to);
    var listed := Enumerate(endpoints);
    nodes := Sort(ByKey(name), listed);
    SortSorts(ByKey(name), listed);
    SortKeepsMembers(ByKey(name), listed);
    SortKeepsDistinct(ByKey(name), listed);
    forall n ensures n in nodes <==> Endpoint(edges, n) {
      assert n in nodes <==> n in endpoints;
    }
  }

  lemma AddNeighbor(g: Graph<DefId>, e: SiblingEdge)
    requires DuplicateFree(g) && e.from in g && !Edge(g, e.from, e.to)
    ensures var g' := g[e.from := g[e.from] + [e.to]];
      && DuplicateFree(g')
      && (forall n :: n in g' <==> n in g)
      && (forall u, v :: Edge(g', u, v) <==> Edge(g, u, v) || SiblingEdge(u, v) == e)
  {}

  method ListNeighbors(nodes: seq<DefId>, edges: seq<SiblingEdge>) returns (neighbors: Graph<DefId>)
    requires forall n :: n in nodes <==> Endpoint(edges, n)
    ensures forall n :: n in neighbors <==> n in nodes
    ensures forall u, v :: Edge(neighbors, u, v) <==> SiblingEdge(u, v) in edges
    ensures DuplicateFree(neighbors)
  {
    neighbors := map n | n in nodes :: [];
    var seen: set<SiblingEdge> := {};
    for i := 0 to |edges|
      invariant forall n :: n in neighbors <==> n in nodes
      invariant forall e :: e in seen <==> e in edges[..i]
      invariant forall u, v :: Edge(neighbors, u, v) <==> SiblingEdge(u, v) in seen
      invariant DuplicateFree(neighbors)
    {
      var e := edges[i];
      assert edges[..i + 1] == edges[..i] + [e];
      hide DuplicateFree, Edge;
      if e !in seen {
        assert Endpoint(edges, e.from);
        AddNeighbor(neighbors, e);
        seen := seen + {e};
        neighbors := neighbors[e.from := neighbors[e.from] + [e.to]];
      }
    }
    assert edges[..|edges|] == edges;
  }

  /** Nodes and neighbours in order of `name`. */
  method BuildAdjacency(edges: seq<SiblingEdge>, name: DefId -> seq<nat>)
    returns (nodes: seq<DefId>, adjacency: Graph<DefId>)
    ensures Carries(adjacency, nodes, edges)
    ensures SortedBy(ByKey(name), nodes)
    ensures forall n :: n in adjacency ==> SortedBy(ByKey(name), adjacency[n])
  {
    nodes := ListNodes(edges, name);
    var neighbors := ListNeighbors(nodes, edges);
    adjacency := map n | n in neighbors :: Sort(ByKey(name), neighbors[n]);
    SortedNeighbors(neighbors, adjacency, name);
  }

  lemma SortedNeighbors(g: Graph<DefId>, g': Graph<DefId>, name: DefId -> seq<nat>)
    requires DuplicateFree(g)
    requires g'.Keys == g.Keys && forall n :: n in g ==> g'[n] == Sort(ByKey(name), g[n])
    ensures DuplicateFree(g') && forall u, v :: Edge(g', u, v) <==> Edge(g, u, v)
    ensures forall n :: n in g' ==> SortedBy(ByKey(name), g'[n])
  {
    hide SortedBy, ByKey;
    ByKeyIsPreorder(name);
    forall n | n in g
      ensures SortedBy(ByKey(name), g'[n]) && Distinct(g'[n])
      ensures forall v :: v in g'[n] <==> v in g[n]
    {
      SortSorts(ByKey(name), g[n]);
      SortKeepsMembers(ByKey(name), g[n]);
      SortKeepsDistinct(ByKey(name), g[n]);
    }
  }

  // ----- a cycle of references, and the module it closes under -----

  /** The references lead from each module to the next and from the last back to the first. */
  ghost predicate ReferenceCycle(references: seq<Reference>, ms: seq<DefId>) {
    |ms| > 0 && forall i :: 0 <= i < |ms| ==> Reference(ms[i], ms[Around(|ms|, i)]) in references
  }

  /** The deepest definition that encloses every module of the list. */
  ghost predicate DeepestCommon(t: Crate, ms: seq<DefId>, a: DefId)
    requires t.WellFormed()
  {
    && (forall i :: 0 <= i < |ms| ==> Within(t, ms[i], a))
    && (forall b :: (forall i :: 0 <= i < |ms| ==> Within(t, ms[i], b)) ==> Within(t, a, b))
  }

  /** The child of `a` that encloses `m`. */
  function ChildTowards(t: Crate, a: DefId, m: DefId): (c: DefId)
    requires t.WellFormed() && Within(t, m, a) && m != a
    ensures c in t.parent && t.parent[c] == a && Within(t, m, c)
  {
    FoundAtDepth(t, m, a);
    ChainSteps(t, m);
    ChainSteps(t, a);
    Chain(t, m)[|Chain(t, a)|]
  }

  function Project(t: Crate, a: DefId, ms: seq<DefId>): (ss: seq<DefId>)
    requires t.WellFormed() && forall i :: 0 <= i < |ms| ==> Within(t, ms[i], a) && ms[i] != a
    ensures |ss| == |ms|
    ensures forall i :: 0 <= i < |ms| ==> ss[i] == ChildTowards(t, a, ms[i])
  {
    seq(|ms|, i requires 0 <= i < |ms| => ChildTowards(t, a, ms[i]))
  }

  /** Each step round the ring follows an edge or stays where it is. */
  ghost predicate Stuttering(g: Graph<DefId>, ss: seq<DefId>) {
    forall i :: 0 <= i < |ss| ==> var j := Around(|ss|, i); ss[i] == ss[j] || Edge(g, ss[i], ss[j])
  }

  lemma ProjectionStutters(t: Crate, references: seq<Reference>, g: Graph<DefId>, a: DefId, ms: seq<DefId>)
    requires t.WellFormed() && ReferenceCycle(references, ms) && a in t.modules
    requires forall i :: 0 <= i < |ms| ==> Within(t, ms[i], a) && ms[i] != a
    requires forall u, v :: Edge(g, u, v) <==> SiblingEdge(u, v) in EdgesUnder(t, references, a)
    ensures Stuttering(g, Project(t, a, ms))
  {
    hide Within, EdgesUnder;
    var ss := Project(t, a, ms);
    forall i | 0 <= i < |ss|
      ensures var j := Around(|ss|, i); ss[i] == ss[j] || Edge(g, ss[i], ss[j])
    {
      var j := Around(|ss|, i);
      var r := Reference(ms[i], ms[j]);
      if ss[i] != ss[j] {
        assert r in references;
        assert JoinsSiblings(t, r, a, SiblingEdge(ss[i], ss[j]));
        EdgeUnderHasReference(t, references, a, SiblingEdge(ss[i], ss[j]));
      }
    }
  }

  /** Two of the modules leave the deepest common one through different children. */
  lemma ProjectionParts(t: Crate, a: DefId, ms: seq<DefId>)
    requires t.WellFormed() && |ms| > 0 && DeepestCommon(t, ms, a)
    requires forall i :: 0 <= i < |ms| ==> Within(t, ms[i], a) && ms[i] != a
    ensures exists i :: 0 <= i < |ms| && Project(t, a, ms)[i] != Project(t, a, ms)[0]
  {
    var c := ChildTowards(t, a, ms[0]);
    if forall i :: 0 <= i < |ms| ==> ChildTowards(t, a, ms[i]) == c {
      assert forall i :: 0 <= i < |ms| ==> Within(t, ms[i], c);
      FoundAtDepth(t, a, c);
      ParentStepsChain(t, c);
      assert false;
    } else {
      var i :| 0 <= i < |ms| && ChildTowards(t, a, ms[i]) != c;
      assert Project(t, a, ms)[i] != Project(t, a, ms)[0];
    }
  }

  /** A ring with stutters that is not constant contains a cycle. */
  lemma {:induction false} Destutter(g: Graph<DefId>, ss: seq<DefId>) returns (c: seq<DefId>)
    requires Stuttering(g, ss) && exists i :: 0 <= i < |ss| && ss[i] != ss[0]
    ensures IsCycle(g, c) && forall x :: x in c ==> x in ss
    decreases |ss|
  {
    var n := |ss|;
    var at :| 0 <= at < n && ss[at] != ss[0];
    if exists i :: 0 <= i < n && ss[i] == ss[Around(n, i)] {
      var i :| 0 <= i < n && ss[i] == ss[Around(n, i)];
      var rest := ss[..i] + ss[i + 1..];
      DropStutter(g, ss, i);
      assert rest[0] == ss[0] by { if i == 0 { assert rest[0] == ss[1]; } }
      assert rest[if at < i then at else if at == i && i + 1 < n then i else at - 1] == ss[at];
      c := Destutter(g, rest);
    } else {
      c := ss;
    }
  }

  lemma DropStutter(g: Graph<DefId>, ss: seq<DefId>, i: nat)
    requires Stuttering(g, ss) && i < |ss| && |ss| > 1 && ss[i] == ss[Around(|ss|, i)]
    ensures Stuttering(g, ss[..i] + ss[i + 1..])
  {
    var rest := ss[..i] + ss[i + 1..];
    forall k | 0 <= k < |rest|
      ensures var j := Around(|rest|, k); rest[k] == rest[j] || Edge(g, rest[k], rest[j])
    {
      var k0 := if k < i then k else k + 1;
      assert rest[k] == ss[k0];
      assert ss[k0] == ss[Around(|ss|, k0)] || Edge(g, ss[k0], ss[Around(|ss|, k0)]);
    }
  }

  /** A cycle of references that stays off the deepest module enclosing it is a cycle of that
      module's children. */
  lemma CycleProjects(t: Crate, references: seq<Reference>, g: Graph<DefId>, ms: seq<DefId>, a: DefId)
    returns (c: seq<DefId>)
    requires t.WellFormed() && ReferenceCycle(references, ms) && DeepestCommon(t, ms, a)
    requires a in t.modules && a !in ms
    requires forall u, v :: Edge(g, u, v) <==> SiblingEdge(u, v) in EdgesUnder(t, references, a)
    ensures IsCycle(g, c)
    ensures forall x :: x in c ==> exists m :: m in ms && Within(t, m, x) && x in t.parent && t.parent[x] == a
  {
    hide EdgesUnder;
    ProjectionStutters(t, references, g, a, ms);
    ProjectionParts(t, a, ms);
    c := Destutter(g, Project(t, a, ms));
  }

  // ----- the lint -----

  /** One module's report names only real cycles of its children, none twice, and leaves no
      cycle of its children without an edge in common with a reported one. */
  ghost predicate ReportFor(t: Crate, references: seq<Reference>, p: DefId, report: seq<seq<DefId>>)
    requires t.WellFormed()
  {
    && (forall c :: c in report ==> Witnessed(t, references, p, c) && Distinct(c))
    && Distinct(report)
    && (forall c :: Witnessed(t, references, p, c) ==> MeetsOneOf(c, report))
  }

  /** One report for every module that needs one. */
  ghost predicate Answers(t: Crate, references: seq<Reference>, reports: map<DefId, seq<seq<DefId>>>)
    requires t.WellFormed()
  {
    && (forall p :: p in reports ==> ReportFor(t, references, p, reports[p]))
    && (forall p, c :: Witnessed(t, references, p, c) ==> p in reports)
  }

  ghost predicate MeetsOneOf(c: seq<DefId>, report: seq<seq<DefId>>) {
    exists r, u, v :: r in report && Crosses(r, u, v) && Crosses(c, u, v)
  }

  /** Every step of the cycle goes between two children of `p` and is made by a reference from
      inside the first to inside the second. */
  ghost predicate Witnessed(t: Crate, references: seq<Reference>, p: DefId, c: seq<DefId>)
    requires t.WellFormed()
  {
    && |c| > 1
    && forall i :: 0 <= i < |c| ==>
         exists r :: r in references && JoinsSiblings(t, r, p, SiblingEdge(c[i], c[Around(|c|, i)]))
  }

  lemma CycleIsWitnessed(t: Crate, references: seq<Reference>, g: Graph<DefId>, p: DefId, c: seq<DefId>)
    requires t.WellFormed() && IsCycle(g, c)
    requires forall u, v :: Edge(g, u, v) <==> SiblingEdge(u, v) in EdgesUnder(t, references, p)
    ensures Witnessed(t, references, p, c)
  {
    forall i | 0 <= i < |c|
      ensures exists r :: r in references && JoinsSiblings(t, r, p, SiblingEdge(c[i], c[Around(|c|, i)]))
    {
      assert Edge(g, c[i], c[Around(|c|, i)]);
      EdgeUnderHasReference(t, references, p, SiblingEdge(c[i], c[Around(|c|, i)]));
    }
    assert 0 <= 0 < |c|;
    var r :| r in references && JoinsSiblings(t, r, p, SiblingEdge(c[0], c[Around(|c|, 0)]));
    assert c[0] != c[Around(|c|, 0)];
  }

  lemma WitnessedIsCycle(t: Crate, references: seq<Reference>, g: Graph<DefId>, p: DefId, c: seq<DefId>)
    requires t.WellFormed() && Witnessed(t, references, p, c)
    requires forall u, v :: Edge(g, u, v) <==> SiblingEdge(u, v) in EdgesUnder(t, references, p)
    ensures IsCycle(g, c)
  {
    forall i | 0 <= i < |c| ensures Edge(g, c[i], c[Around(|c|, i)]) {
      EdgeUnderHasReference(t, references, p, SiblingEdge(c[i], c[Around(|c|, i)]));
    }
  }

  lemma CycleMeetsReport(nodes: seq<DefId>, g: Graph<DefId>, report: seq<seq<DefId>>, closing: set<(DefId, DefId)>, c: seq<DefId>)
    requires Complete(nodes, g, report, closing) && OnePerClosing(report, closing) && Covers(nodes, g)
    requires IsCycle(g, c)
    ensures MeetsOneOf(c, report)
  {
    assert Edge(g, c[0], c[Around(|c|, 0)]);
    assert CrossesOneOf(c, closing);
    var u, v :| (u, v) in closing && Crosses(c, u, v);
    var r :| r in report && Crosses(r, u, v);
  }

  /** A cycle of references whose deepest enclosing module is `a`, and which stays off `a`. */
  ghost predicate ClosesUnder(t: Crate, references: seq<Reference>, ms: seq<DefId>, a: DefId)
    requires t.WellFormed()
  {
    ReferenceCycle(references, ms) && DeepestCommon(t, ms, a) && a in t.modules && a !in ms
  }

  lemma ReportIsWitnessed(t: Crate, references: seq<Reference>, p: DefId, nodes: seq<DefId>, g: Graph<DefId>,
                          report: seq<seq<DefId>>, closing: set<(DefId, DefId)>)
    requires t.WellFormed() && Carries(g, nodes, EdgesUnder(t, references, p)) && Sound(nodes, g, report, closing)
    ensures forall c :: c in report ==> Witnessed(t, references, p, c) && Distinct(c)
    ensures Distinct(report)
  {
    hide EdgesUnder, Witnessed, CycleKey, OrderOf, Distinct, LeastFirst, CrossesExactlyOneOf, IsCycle, StrictlySorted;
    StrictlyMeansDistinct(CycleKey(OrderOf(nodes)), report);
    forall c | c in report ensures Witnessed(t, references, p, c) {
      CycleIsWitnessed(t, references, g, p, c);
    }
  }

  lemma ReportIsComplete(t: Crate, references: seq<Reference>, p: DefId, nodes: seq<DefId>, g: Graph<DefId>,
                         report: seq<seq<DefId>>, closing: set<(DefId, DefId)>)
    requires t.WellFormed() && Carries(g, nodes, EdgesUnder(t, references, p))
    requires Complete(nodes, g, report, closing) && (Covers(nodes, g) ==> OnePerClosing(report, closing))
    requires Covers(nodes, g) ==> (report == [] <==> Acyclic(g))
    ensures forall c :: Witnessed(t, references, p, c) ==> MeetsOneOf(c, report)
    ensures forall ms :: ClosesUnder(t, references, ms, p) ==> report != []
  {
    hide EdgesUnder, ReferenceCycle, DeepestCommon, Witnessed, Complete, OnePerClosing, MeetsOneOf;
    forall c | Witnessed(t, references, p, c) ensures MeetsOneOf(c, report) {
      WitnessedIsCycle(t, references, g, p, c);
      CycleMeetsReport(nodes, g, report, closing, c);
    }
    forall ms | ClosesUnder(t, references, ms, p) ensures report != [] {
      var c := CycleProjects(t, references, g, ms, p);
      assert IsCycle(g, c);
    }
  }

  /** The report is that of a depth-first search of the edges, over nodes and neighbours in order of
      `name`. */
  ghost predicate IsSearch(edges: seq<SiblingEdge>, name: DefId -> seq<nat>, report: seq<seq<DefId>>,
                           nodes: seq<DefId>, g: Graph<DefId>, closing: set<(DefId, DefId)>, forest: Forest<DefId>) {
    && Carries(g, nodes, edges)
    && SortedBy(ByKey(name), nodes) && (forall n :: n in g ==> SortedBy(ByKey(name), g[n]))
    && Finds(nodes, g, report, closing)
    && IsDepthFirst(nodes, g, forest) && Retraces(g, forest, report, closing)
  }

  ghost predicate Searched(edges: seq<SiblingEdge>, name: DefId -> seq<nat>, report: seq<seq<DefId>>) {
    exists nodes, g, closing, forest :: IsSearch(edges, name, report, nodes, g, closing, forest)
  }

  /** Told by names alone: no member of a reported cycle has a smaller name than its first, each report
      crosses exactly one edge of a set, no two the same, and there are as many as those. */
  ghost predicate OneForEach(edges: seq<SiblingEdge>, name: DefId -> seq<nat>, report: seq<seq<DefId>>,
                             closing: set<(DefId, DefId)>) {
    && (forall c, i :: c in report && 0 <= i < |c| ==> LexLeq(name(c[0]), name(c[i])))
    && (forall c :: c in report ==> CrossesExactlyOneOf(c, closing))
    && (forall u, v :: (u, v) in closing ==> SiblingEdge(u, v) in edges)
    && OnePerClosing(report, closing) && |report| == |closing| && CrossedApart(report, closing)
  }

  /** No two reports cross the same edge of the set. */
  ghost predicate CrossedApart(report: seq<seq<DefId>>, closing: set<(DefId, DefId)>) {
    forall u, v, r, q ::
      (u, v) in closing && r in report && q in report && Crosses(r, u, v) && Crosses(q, u, v) ==> r == q
  }

  lemma LeastNameFirst(name: DefId -> seq<nat>, nodes: seq<DefId>, c: seq<DefId>, i: nat)
    requires SortedBy(ByKey(name), nodes) && LeastFirst(OrderOf(nodes), c) && i < |c| && c[0] in nodes && c[i] in nodes
    ensures LexLeq(name(c[0]), name(c[i]))
  {
    var order := OrderOf(nodes);
    hide OrderOf;
    assert RankOf(order, c[0]) <= RankOf(order, c[i]);
    if order[c[0]] < order[c[i]] { assert ByKey(name)(nodes[order[c[0]]], nodes[order[c[i]]]); }
  }

  lemma SearchedByName(edges: seq<SiblingEdge>, name: DefId -> seq<nat>, report: seq<seq<DefId>>)
    requires Searched(edges, name, report)
    ensures exists closing :: OneForEach(edges, name, report, closing)
  {
    hide Carries, Finds, IsDepthFirst, Retraces, SortedBy;
    var nodes, g, closing, forest :| IsSearch(edges, name, report, nodes, g, closing, forest);
    SearchIsOneForEach(edges, name, report, nodes, g, closing, forest);
  }

  lemma FirstNamed(edges: seq<SiblingEdge>, name: DefId -> seq<nat>, report: seq<seq<DefId>>, nodes: seq<DefId>,
                   g: Graph<DefId>, closing: set<(DefId, DefId)>)
    requires Carries(g, nodes, edges) && SortedBy(ByKey(name), nodes) && Sound(nodes, g, report, closing)
    ensures forall c, i :: c in report && 0 <= i < |c| ==> LexLeq(name(c[0]), name(c[i]))
  {
    MembersAreNodes(edges, nodes, g);
    hide Carries, SortedBy, Edge, LeastFirst, OrderOf, Distinct, StrictlySorted, CrossesExactlyOneOf, LexLeq;
    forall c, i | c in report && 0 <= i < |c| ensures LexLeq(name(c[0]), name(c[i])) {
      assert IsCycle(g, c) && LeastFirst(OrderOf(nodes), c);
      assert Edge(g, c[0], c[Around(|c|, 0)]) && Edge(g, c[i], c[Around(|c|, i)]);
      LeastNameFirst(name, nodes, c, i);
    }
  }

  lemma ClosingsAreEdges(edges: seq<SiblingEdge>, nodes: seq<DefId>, g: Graph<DefId>, f: Forest<DefId>,
                         report: seq<seq<DefId>>, closing: set<(DefId, DefId)>)
    requires Carries(g, nodes, edges) && Retraces(g, f, report, closing)
    ensures forall u, v :: (u, v) in closing ==> SiblingEdge(u, v) in edges
  {
    hide StepsDown, Endpoint, Distinct, DuplicateFree;
  }

  lemma ReportsCrossApart(nodes: seq<DefId>, g: Graph<DefId>, report: seq<seq<DefId>>, closing: set<(DefId, DefId)>)
    requires Finds(nodes, g, report, closing) && Covers(nodes, g) && DuplicateFree(g)
    ensures CrossedApart(report, closing)
  {
    hide Finds, Covers, DuplicateFree;
    forall u, v, r, q |
      (u, v) in closing && r in report && q in report && Crosses(r, u, v) && Crosses(q, u, v)
      ensures r == q
    {
      OneReportACrossing(nodes, g, report, closing, u, v, r, q);
    }
  }

  lemma SearchIsOneForEach(edges: seq<SiblingEdge>, name: DefId -> seq<nat>, report: seq<seq<DefId>>,
                           nodes: seq<DefId>, g: Graph<DefId>, closing: set<(DefId, DefId)>, forest: Forest<DefId>)
    requires IsSearch(edges, name, report, nodes, g, closing, forest)
    ensures OneForEach(edges, name, report, closing)
  {
    FirstNamed(edges, name, report, nodes, g, closing);
    ClosingsAreEdges(edges, nodes, g, forest, report, closing);
    assert Covers(nodes, g) by { hide Finds, Retraces, IsDepthFirst, SortedBy; }
    assert forall c :: c in report ==> CrossesExactlyOneOf(c, closing) by {
      hide IsDepthFirst, Retraces, SortedBy, Carries, CrossesExactlyOneOf, Complete, OnePerClosing, Covers;
    }
    hide IsDepthFirst, Retraces, SortedBy, Edge, Endpoint, Distinct, Sound, Complete, OnePerClosing, Covers,
      DuplicateFree, CrossesExactlyOneOf, LexLeq, IsCycle, Crosses;
    ReportsCrossApart(nodes, g, report, closing);
    hide CrossedApart;
  }

  lemma MembersAreNodes(edges: seq<SiblingEdge>, nodes: seq<DefId>, g: Graph<DefId>)
    requires Carries(g, nodes, edges)
    ensures forall u, v :: Edge(g, u, v) ==> u in nodes && v in nodes && SiblingEdge(u, v) in edges
  {
    forall u, v | Edge(g, u, v) ensures u in nodes && v in nodes && SiblingEdge(u, v) in edges {
      assert SiblingEdge(u, v) in edges;
      assert Endpoint(edges, u) && Endpoint(edges, v);
    }
  }

  /** What one module reports is right, found in the order of the names, and not empty if a cycle of
      references closes under it. */
  ghost predicate Reported(t: Crate, references: seq<Reference>, name: DefId -> seq<nat>, p: DefId,
                           report: seq<seq<DefId>>)
    requires t.WellFormed()
  {
    && ReportFor(t, references, p, report)
    && Searched(EdgesUnder(t, references, p), name, report)
    && forall ms :: ClosesUnder(t, references, ms, p) ==> report != []
  }

  /** The cycles of one module's sibling graph. */
  method ReportCycles(t: Crate, references: seq<Reference>, p: DefId, edges: seq<SiblingEdge>, name: DefId -> seq<nat>)
    returns (report: seq<seq<DefId>>)
    requires t.WellFormed() && edges == EdgesUnder(t, references, p)
    ensures Reported(t, references, name, p, report)
  {
    hide EdgesUnder, ClosesUnder, Carries, Covers, Sound, Complete, OnePerClosing, Acyclic, DuplicateFree,
      Witnessed, MeetsOneOf, Distinct, IsCycle, Crosses, IsDepthFirst, Retraces, SortedBy;
    var nodes, adjacency := BuildAdjacency(edges, name);
    ghost var closing, forest;
    report, closing, forest := DetectCycles(nodes, adjacency);
    assert IsSearch(edges, name, report, nodes, adjacency, closing, forest);
    ReportIsWitnessed(t, references, p, nodes, adjacency, report, closing);
    ReportIsComplete(t, references, p, nodes, adjacency, report, closing);
  }

  /** The modules with references between their children report what a search by `name` finds, and no
      cycle of references that closes under a module goes without a report there. */
  ghost predicate Reports(t: Crate, references: seq<Reference>, name: DefId -> seq<nat>,
                          reports: map<DefId, seq<seq<DefId>>>)
    requires t.WellFormed()
  {
    && (forall p :: p in reports <==> EdgesUnder(t, references, p) != [])
    && (forall p :: p in reports ==> Searched(EdgesUnder(t, references, p), name, reports[p]))
    && (forall ms, a :: ClosesUnder(t, references, ms, a) ==> a in reports && reports[a] != [])
  }

  /** Every module that owns a sibling graph, with the cycles found in it. A cycle of references
      is reported under the deepest module that encloses it, whenever it does not pass through
      that module itself; and whatever is reported under a module is such a cycle. */
  method CheckCrate(t: Crate, references: seq<Reference>, name: DefId -> seq<nat>)
    returns (reports: map<DefId, seq<seq<DefId>>>)
    requires t.WellFormed()
    ensures Answers(t, references, reports)
    ensures Reports(t, references, name, reports)
  {
    hide *;
    var graphs := BuildSiblingGraphs(t, references);
    reports := map[];
    var parents := Enumerate(graphs.Keys);
    for i := 0 to |parents|
      invariant forall p :: p in reports <==> p in parents[..i]
      invariant forall p :: p in reports ==> Reported(t, references, name, p, reports[p])
    {
      var p := parents[i];
      assert p in graphs;
      var report := ReportCycles(t, references, p, graphs[p], name);
      reports := reports[p := report];
      assert parents[..i + 1] == parents[..i] + [p];
    }
    assert parents[..|parents|] == parents;
    EveryOwnerAnswers(t, references, name, reports);
  }

  lemma EveryOwnerAnswers(t: Crate, references: seq<Reference>, name: DefId -> seq<nat>,
                          reports: map<DefId, seq<seq<DefId>>>)
    requires t.WellFormed() && forall p :: p in reports <==> EdgesUnder(t, references, p) != []
    requires forall p :: p in reports ==> Reported(t, references, name, p, reports[p])
    ensures Answers(t, references, reports)
    ensures Reports(t, references, name, reports)
  {
    hide EdgesUnder, ClosesUnder, ReportFor, Witnessed, Searched;
    forall p, c | Witnessed(t, references, p, c) ensures p in reports {
      WitnessedHasEdge(t, references, p, c);
    }
    forall ms, a | ClosesUnder(t, references, ms, a) ensures a in reports && reports[a] != [] {
      CycleHasEdge(t, references, ms, a);
    }
  }

  lemma WitnessedHasEdge(t: Crate, references: seq<Reference>, p: DefId, c: seq<DefId>)
    requires t.WellFormed() && Witnessed(t, references, p, c)
    ensures EdgesUnder(t, references, p) != []
  {
    EdgeUnderHasReference(t, references, p, SiblingEdge(c[0], c[Around(|c|, 0)]));
  }

  /** The edges of a list, as a graph. */
  function GraphOf(edges: seq<SiblingEdge>): (g: Graph<DefId>)
    ensures forall u, v :: Edge(g, u, v) <==> SiblingEdge(u, v) in edges
  {
    map u: DefId | u in (set e | e in edges :: e.from) :: Targets(edges, u)
  }

  lemma CycleHasEdge(t: Crate, references: seq<Reference>, ms: seq<DefId>, a: DefId)
    requires t.WellFormed() && ClosesUnder(t, references, ms, a)
    ensures EdgesUnder(t, references, a) != []
  {
    var g := GraphOf(EdgesUnder(t, references, a));
    var c := CycleProjects(t, references, g, ms, a);
    assert Edge(g, c[0], c[Around(|c|, 0)]);
  }

  function Targets(edges: seq<SiblingEdge>, u: DefId): (r: seq<DefId>)
    ensures forall v :: v in r <==> SiblingEdge(u, v) in edges
  {
    if edges == [] then []
    else
      assert edges == [edges[0]] + edges[1..];
      (if edges[0].from == u then [edges[0].to] else []) + Targets(edges[1..], u)
  }
}
