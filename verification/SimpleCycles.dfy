/** Which of the simple cycles of a graph the report lists. A cycle counts as listed when the report
    holds the same ring of nodes, wherever it starts. */
module SimpleCycles {
  import opened Sorting
  import opened DepthFirstSearch
  import opened CycleReports

  ghost predicate IsSimple<N(!new)>(g: Graph<N>, c: seq<N>) {
    IsCycle(g, c) && Distinct(c)
  }

  ghost predicate SameRing<N(!new)>(c: seq<N>, d: seq<N>) {
    forall u, v :: Crosses(c, u, v) <==> Crosses(d, u, v)
  }

  ghost predicate Listed<N(!new)>(report: seq<seq<N>>, c: seq<N>) {
    exists r :: r in report && SameRing(r, c)
  }

  ghost predicate ListsAll<N(!new)>(g: Graph<N>, report: seq<seq<N>>) {
    forall c :: IsSimple(g, c) ==> Listed(report, c)
  }

  /** No edge lies on two different simple cycles. */
  ghost predicate EdgesApart<N(!new)>(g: Graph<N>) {
    forall c, d, u, v :: IsSimple(g, c) && IsSimple(g, d) && Crosses(c, u, v) && Crosses(d, u, v) ==> SameRing(c, d)
  }

  lemma ListedThrough<N(!new)>(nodes: seq<N>, g: Graph<N>, report: seq<seq<N>>, closing: set<(N, N)>, u: N, v: N)
    returns (r: seq<N>)
    requires Finds(nodes, g, report, closing) && Covers(nodes, g) && (u, v) in closing
    ensures r in report && Crosses(r, u, v) && IsSimple(g, r)
  {
    hide IsCycle, Distinct, Crosses, LeastFirst, CrossesExactlyOneOf, StrictlySorted;
    r :| r in report && Crosses(r, u, v);
  }

  /** Where no edge lies on two simple cycles, every simple cycle is reported, in whatever order the
      nodes and their neighbours are searched. */
  lemma ApartCyclesAreAllListed<N(!new)>(nodes: seq<N>, g: Graph<N>, report: seq<seq<N>>, closing: set<(N, N)>)
    requires Finds(nodes, g, report, closing) && Covers(nodes, g) && EdgesApart(g)
    ensures ListsAll(g, report)
  {
    forall c | IsSimple(g, c) ensures Listed(report, c) {
      assert Edge(g, c[0], c[Around(|c|, 0)]);
      hide Distinct, Crosses, SameRing;
      assert CrossesOneOf(c, closing);
      var u, v :| (u, v) in closing && Crosses(c, u, v);
      var r := ListedThrough(nodes, g, report, closing, u, v);
      assert SameRing(r, c);
    }
  }

  // ----- each closing edge has one report -----

  lemma {:induction false} ImageAtMost<S, T>(s: seq<S>, f: S -> T)
    ensures |set x | x in s :: f(x)| <= |s|
  {
    if s == [] {
      assert (set x | x in s :: f(x)) == {};
    } else {
      ImageAtMost(s[1..], f);
      assert s == [s[0]] + s[1..];
      assert (set x | x in s :: f(x)) == {f(s[0])} + set x | x in s[1..] :: f(x);
    }
  }

  /** A map from a list onto as many values as the list is long sends no two members to one value. */
  lemma OntoIsOneToOne<S(!new), T>(s: seq<S>, f: S -> T, image: set<T>, x: S, y: S)
    requires Distinct(s) && |s| == |image| && x in s && y in s && f(x) == f(y)
    requires forall t :: t in image ==> exists z :: z in s && f(z) == t
    ensures x == y
  {
    if x != y {
      var j :| 0 <= j < |s| && s[j] == y;
      var rest := s[..j] + s[j + 1..];
      ImageAtMost(rest, f);
      assert forall z :: z in s ==> z in rest || z == y;
      assert x in rest;
      var covered := set z | z in rest :: f(z);
      forall t | t in image ensures t in covered {
        var z :| z in s && f(z) == t;
        if z == y { assert f(x) == t; }
      }
      SubsetCount(image, covered);
      assert false;
    }
  }

  lemma SubsetCount<T>(a: set<T>, b: set<T>)
    requires a <= b
    ensures |a| <= |b|
  {
    assert b == a + (b - a);
  }

  /** The closing edge a reported cycle crosses. */
  ghost function ClosingOf<N(!new)>(closing: set<(N, N)>): seq<N> -> (N, N)
    requires closing != {}
  {
    (r: seq<N>) => if CrossesOneOf(r, closing) then CrossedOf(r, closing) else var e :| e in closing; e
  }

  ghost function CrossedOf<N(!new)>(r: seq<N>, closing: set<(N, N)>): (e: (N, N))
    requires CrossesOneOf(r, closing)
    ensures e in closing && Crosses(r, e.0, e.1)
  {
    var u, v :| (u, v) in closing && Crosses(r, u, v);
    (u, v)
  }

  lemma ClosingOfIs<N(!new)>(r: seq<N>, closing: set<(N, N)>, u: N, v: N)
    requires CrossesExactlyOneOf(r, closing) && (u, v) in closing && Crosses(r, u, v)
    ensures ClosingOf(closing)(r) == (u, v)
  {
    var e := CrossedOf(r, closing);
    assert (e.0, e.1) == e;
  }

  /** Over neighbour lists without duplicates no two reports cross the same closing edge. */
  lemma OneReportACrossing<N(!new)>(nodes: seq<N>, g: Graph<N>, report: seq<seq<N>>, closing: set<(N, N)>,
                                    u: N, v: N, r: seq<N>, q: seq<N>)
    requires Finds(nodes, g, report, closing) && Covers(nodes, g) && DuplicateFree(g)
    requires (u, v) in closing && r in report && q in report && Crosses(r, u, v) && Crosses(q, u, v)
    ensures r == q
  {
    hide IsCycle, Distinct, Crosses, LeastFirst, CrossesExactlyOneOf, StrictlySorted, CycleKey, OrderOf, DuplicateFree, Acyclic;
    StrictlyMeansDistinct(CycleKey(OrderOf(nodes)), report);
    ClosingOfIs(r, closing, u, v);
    ClosingOfIs(q, closing, u, v);
    forall e | e in closing ensures exists z :: z in report && ClosingOf(closing)(z) == e {
      assert (e.0, e.1) in closing;
      var z := ListedThrough(nodes, g, report, closing, e.0, e.1);
      ClosingOfIs(z, closing, e.0, e.1);
    }
    OntoIsOneToOne(report, ClosingOf(closing), closing, r, q);
  }

  /** Where two different simple cycles share an edge, a search that starts at the end of that edge
      leaves one of them out. */
  lemma SharedEdgeIsMissed<N(!new)>(nodes: seq<N>, g: Graph<N>, report: seq<seq<N>>, closing: set<(N, N)>,
                                    c: seq<N>, d: seq<N>, u: N)
    requires Finds(nodes, g, report, closing) && Covers(nodes, g) && DuplicateFree(g) && nodes != []
    requires IsSimple(g, c) && IsSimple(g, d) && !SameRing(c, d)
    requires Crosses(c, u, nodes[0]) && Crosses(d, u, nodes[0])
    ensures !Listed(report, c) || !Listed(report, d)
  {
    assert (u, nodes[0]) in closing;
    hide Finds, Crosses, DuplicateFree, IsSimple;
    if Listed(report, c) && Listed(report, d) {
      var r :| r in report && SameRing(r, c);
      var q :| q in report && SameRing(q, d);
      OneReportACrossing(nodes, g, report, closing, u, nodes[0], r, q);
    }
  }

  /** The whole of it: every simple cycle is reported from every starting point exactly when no edge
      lies on two of them. `results` are what the searches from the nodes of the graph found. */
  lemma AllListedIffApart<N(!new)>(g: Graph<N>, results: map<N, (seq<N>, seq<seq<N>>, set<(N, N)>)>)
    requires DuplicateFree(g) && forall n :: n in g ==> n in results
    requires forall n :: n in results ==>
      var (nodes, report, closing) := results[n];
      nodes != [] && nodes[0] == n && Covers(nodes, g) && Finds(nodes, g, report, closing)
    ensures (forall n :: n in results ==> ListsAll(g, results[n].1)) <==> EdgesApart(g)
  {
    hide Finds, Covers, DuplicateFree;
    if EdgesApart(g) {
      forall n | n in results ensures ListsAll(g, results[n].1) {
        ApartCyclesAreAllListed(results[n].0, g, results[n].1, results[n].2);
      }
    } else {
      var c, d, u, v :| IsSimple(g, c) && IsSimple(g, d) && Crosses(c, u, v) && Crosses(d, u, v) && !SameRing(c, d);
      CrossedIsNode(g, c, u, v);
      hide Crosses, SameRing, IsSimple;
      SharedEdgeIsMissed(results[v].0, g, results[v].1, results[v].2, c, d, u);
      assert v in results;
    }
  }

  lemma CrossedIsNode<N(!new)>(g: Graph<N>, c: seq<N>, u: N, v: N)
    requires IsCycle(g, c) && Crosses(c, u, v)
    ensures v in g
  {
    var i :| 0 <= i < |c| && c[i] == u && c[Around(|c|, i)] == v;
    var j := Around(|c|, i);
    assert Edge(g, c[j], c[Around(|c|, j)]);
  }

  // ----- the same ring is the same list -----

  lemma {:induction false} FollowsTheRing<N(!new)>(g: Graph<N>, c: seq<N>, r: seq<N>, i: nat)
    requires IsSimple(g, c) && IsSimple(g, r) && SameRing(c, r) && c[0] == r[0] && i < |c|
    ensures i < |r| && c[i] == r[i]
    decreases i
  {
    if i == 0 {
    } else {
      FollowsTheRing(g, c, r, i - 1);
      assert Around(|c|, i - 1) == i && Crosses(c, c[i - 1], c[i]);
      var k :| 0 <= k < |r| && r[k] == c[i - 1] && r[Around(|r|, k)] == c[i];
      assert k == i - 1;
      assert c[i] != c[0];
    }
  }

  lemma SameRingSameList<N(!new)>(g: Graph<N>, c: seq<N>, r: seq<N>)
    requires IsSimple(g, c) && IsSimple(g, r) && SameRing(c, r) && c[0] == r[0]
    ensures c == r
  {
    FollowsTheRing(g, c, r, |c| - 1);
    FollowsTheRing(g, r, c, |r| - 1);
    forall i | 0 <= i < |c| ensures c[i] == r[i] { FollowsTheRing(g, c, r, i); }
  }

  lemma MembersOfTheRing<N(!new)>(g: Graph<N>, c: seq<N>, r: seq<N>, x: N)
    requires IsCycle(g, c) && SameRing(c, r) && x in c
    ensures x in r
  {
    var i :| 0 <= i < |c| && c[i] == x;
    assert Crosses(c, x, c[Around(|c|, i)]);
    assert Crosses(r, x, c[Around(|c|, i)]);
  }

  /** Being listed is being in the report, rotated to the least-ordered member. */
  lemma ListedIffNormalizedIsReported<N(!new)>(nodes: seq<N>, g: Graph<N>, report: seq<seq<N>>, closing: set<(N, N)>, c: seq<N>)
    requires Finds(nodes, g, report, closing) && Covers(nodes, g) && IsSimple(g, c)
    ensures Listed(report, c) <==> NormalizeCycle(OrderOf(nodes), c) in report
  {
    var order := OrderOf(nodes);
    var n := NormalizeCycle(order, c);
    NormalizedIsCycle(g, order, c);
    RotateMembers(c, LeastAt(order, c));
    NormalizeLeastFirst(order, c);
    assert IsSimple(g, n) && SameRing(n, c);
    if Listed(report, c) {
      var r :| r in report && SameRing(r, c);
      assert IsSimple(g, r) && LeastFirst(order, r);
      SameLeast(nodes, g, n, r);
      SameRingSameList(g, n, r);
    }
  }

  lemma SameLeast<N(!new)>(nodes: seq<N>, g: Graph<N>, c: seq<N>, r: seq<N>)
    requires IsSimple(g, c) && IsSimple(g, r) && SameRing(c, r) && Covers(nodes, g)
    requires LeastFirst(OrderOf(nodes), c) && LeastFirst(OrderOf(nodes), r)
    ensures c[0] == r[0]
  {
    MembersOfTheRing(g, c, r, c[0]);
    MembersOfTheRing(g, r, c, r[0]);
    assert Edge(g, c[0], c[Around(|c|, 0)]) && Edge(g, r[0], r[Around(|r|, 0)]);
  }

  // ----- a graph with a cycle that is not reported -----

  /** Three nodes with edges 0-1, 0-2, 1-2 and 2-0. */
  predicate IsTriangle(g: Graph<nat>) {
    g.Keys == {0, 1, 2} && g[0] == [1, 2] && g[1] == [2] && g[2] == [0]
  }

  lemma LongRing(g: Graph<nat>, c: seq<nat>)
    requires IsTriangle(g) && c == [0, 1, 2]
    ensures IsSimple(g, c) && Crosses(c, 2, 0) && Crosses(c, 0, 1)
  {
    assert Around(|c|, 2) == 0 && Around(|c|, 0) == 1 && Around(|c|, 1) == 2;
    assert c[2] == 2 && c[0] == 0 && c[1] == 1;
  }

  lemma ShortRing(g: Graph<nat>, d: seq<nat>)
    requires IsTriangle(g) && d == [0, 2]
    ensures IsSimple(g, d) && Crosses(d, 2, 0) && !Crosses(d, 0, 1)
  {
    assert Around(|d|, 1) == 0 && Around(|d|, 0) == 1;
    assert d[1] == 2 && d[0] == 0;
  }

  /** Of the two simple cycles of this graph, which share the edge back to the start, the report
      leaves one out. */
  lemma OneOfTwoIsMissed(g: Graph<nat>, nodes: seq<nat>, c: seq<nat>, d: seq<nat>, report: seq<seq<nat>>, closing: set<(nat, nat)>)
    requires IsTriangle(g) && nodes == [0, 1, 2] && c == [0, 1, 2] && d == [0, 2]
    requires Finds(nodes, g, report, closing)
    ensures IsSimple(g, c) && IsSimple(g, d)
    ensures !Listed(report, c) || !Listed(report, d)
  {
    hide Finds, Crosses, IsSimple, Listed;
    LongRing(g, c);
    ShortRing(g, d);
    SharedEdgeIsMissed(nodes, g, report, closing, c, d, 2);
  }
}
