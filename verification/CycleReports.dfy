/** From the raw cycles of one search to the list that is reported. */
module CycleReports {
  import opened Sorting
  import opened DepthFirstSearch

  /** What an ordering lookup answers for a node it does not hold: `usize::MAX`. */
  const UNORDERED: nat := 0xFFFF_FFFF_FFFF_FFFF

  function OrderOf<N(==, !new)>(nodes: seq<N>): (order: map<N, nat>)
    ensures forall n :: n in order <==> n in nodes
    ensures forall n :: n in order ==> order[n] < |nodes| && nodes[order[n]] == n
  {
    if nodes == [] then map[]
    else
      var last := |nodes| - 1;
      assert nodes == nodes[..last] + [nodes[last]];
      OrderOf(nodes[..last])[nodes[last] := last]
  }

  function RankOf<N(==, !new)>(order: map<N, nat>, n: N): nat {
    if n in order then order[n] else UNORDERED
  }

  function CycleKey<N(==, !new)>(order: map<N, nat>): seq<N> -> seq<nat> {
    (c: seq<N>) => seq(|c|, i requires 0 <= i < |c| => RankOf(order, c[i]))
  }

  function Rotate<N>(c: seq<N>, k: nat): seq<N>
    requires k <= |c|
  {
    c[k..] + c[..k]
  }

  /** The first position of the least-ordered member. */
  function LeastAt<N(==, !new)>(order: map<N, nat>, c: seq<N>): (k: nat)
    requires c != []
    ensures k < |c|
    ensures forall i :: 0 <= i < |c| ==> RankOf(order, c[k]) <= RankOf(order, c[i])
    ensures forall i :: 0 <= i < k ==> RankOf(order, c[k]) < RankOf(order, c[i])
  {
    if |c| == 1 then 0
    else
      var k := LeastAt(order, c[..|c| - 1]);
      if RankOf(order, c[|c| - 1]) < RankOf(order, c[k]) then |c| - 1 else k
  }

  function NormalizeCycle<N(==, !new)>(order: map<N, nat>, c: seq<N>): seq<N> {
    if c == [] then c else Rotate(c, LeastAt(order, c))
  }

  function NormalizeAll<N(==, !new)>(order: map<N, nat>, cycles: seq<seq<N>>): (r: seq<seq<N>>)
    ensures |r| == |cycles|
    ensures forall k :: 0 <= k < |r| ==> r[k] == NormalizeCycle(order, cycles[k])
  {
    seq(|cycles|, k requires 0 <= k < |cycles| => NormalizeCycle(order, cycles[k]))
  }

  ghost predicate LeastFirst<N(!new)>(order: map<N, nat>, c: seq<N>) {
    forall i :: 0 <= i < |c| ==> RankOf(order, c[0]) <= RankOf(order, c[i])
  }

  /** Every node with an edge out of it is among the nodes searched from. */
  ghost predicate Covers<N(!new)>(nodes: seq<N>, g: Graph<N>) {
    forall u :: u in g ==> u in nodes
  }

  // ----- rotations -----

  lemma RotateIndex<N>(c: seq<N>, k: nat, i: nat)
    requires k <= |c| && i < |c|
    ensures Rotate(c, k)[i] == c[if k + i < |c| then k + i else k + i - |c|]
  {}

  lemma RotateMembers<N(!new)>(c: seq<N>, k: nat)
    requires k <= |c|
    ensures forall x :: x in Rotate(c, k) <==> x in c
    ensures Distinct(c) ==> Distinct(Rotate(c, k))
  {}

  lemma RotateCrosses<N(!new)>(c: seq<N>, k: nat, i: nat)
    requires k < |c| && i < |c|
    ensures Crosses(c, Rotate(c, k)[i], Rotate(c, k)[Around(|c|, i)])
  {
    var j := if k + i < |c| then k + i else k + i - |c|;
    RotateIndex(c, k, i);
    RotateIndex(c, k, Around(|c|, i));
    assert c[j] == Rotate(c, k)[i] && c[Around(|c|, j)] == Rotate(c, k)[Around(|c|, i)];
  }

  lemma RotateIsCycle<N(!new)>(g: Graph<N>, c: seq<N>, k: nat)
    requires IsCycle(g, c) && k < |c|
    ensures IsCycle(g, Rotate(c, k))
    ensures forall u, v :: Crosses(Rotate(c, k), u, v) <==> Crosses(c, u, v)
  {
    var r := Rotate(c, k);
    forall i | 0 <= i < |r| ensures Edge(g, r[i], r[Around(|r|, i)]) {
      RotateCrosses(c, k, i);
    }
    forall u, v | Crosses(r, u, v) ensures Crosses(c, u, v) {
      var i :| 0 <= i < |r| && r[i] == u && r[Around(|r|, i)] == v;
      RotateCrosses(c, k, i);
    }
    if k > 0 {
      assert Rotate(r, |c| - k) == c;
      forall u, v | Crosses(c, u, v) ensures Crosses(r, u, v) {
        var i :| 0 <= i < |c| && c[i] == u && c[Around(|c|, i)] == v;
        RotateCrosses(r, |c| - k, i);
      }
    } else {
      assert r == c;
    }
  }

  ghost predicate RanksApart<N(!new)>(order: map<N, nat>, c: seq<N>) {
    forall i, j :: 0 <= i < j < |c| ==> RankOf(order, c[i]) != RankOf(order, c[j])
  }

  lemma RotateTwice<N(!new)>(c: seq<N>, k: nat, q: nat)
    requires k < |c| && q < |c|
    ensures Rotate(Rotate(c, k), q) == Rotate(c, if k + q < |c| then k + q else k + q - |c|)
  {}

  lemma LeastIsUnique<N(!new)>(order: map<N, nat>, c: seq<N>, k: nat)
    requires RanksApart(order, c) && k < |c|
    requires LeastFirst(order, Rotate(c, k))
    ensures LeastAt(order, c) == k
  {
    var p := LeastAt(order, c);
    var back := if p >= k then p - k else p - k + |c|;
    RotateIndex(c, k, back);
    RotateIndex(c, k, 0);
    assert RankOf(order, c[k]) <= RankOf(order, c[p]);
  }

  lemma NormalizeLeastFirst<N(!new)>(order: map<N, nat>, c: seq<N>)
    requires c != []
    ensures LeastFirst(order, NormalizeCycle(order, c))
  {}

  /** Whichever member a cycle was entered from, it is reported as the same list. */
  lemma RotationsNormalizeAlike<N(!new)>(order: map<N, nat>, c: seq<N>, k: nat)
    requires RanksApart(order, c) && k < |c|
    ensures NormalizeCycle(order, Rotate(c, k)) == NormalizeCycle(order, c)
  {
    var r := Rotate(c, k);
    var q := LeastAt(order, r);
    RotateTwice(c, k, q);
    NormalizeLeastFirst(order, r);
    LeastIsUnique(order, c, if k + q < |c| then k + q else k + q - |c|);
  }

  /** A raw cycle starts where the search entered it, so no two raw cycles are rotations of
      one another. */
  lemma RawRotationsAgree<N(!new)>(g: Graph<N>, entered: map<N, nat>, a: seq<N>, b: seq<N>, k: nat, l: nat)
    requires Raw(g, entered, a) && Raw(g, entered, b)
    requires k < |a| && l < |b| && Rotate(a, k) == Rotate(b, l)
    ensures a == b
  {
    RotateMembers(a, k);
    RotateMembers(b, l);
    FirstEnteredFirst(g, entered, a, b);
    RawIsDistinct(g, entered, a);
    RotationsAgree(a, b, k, l);
  }

  lemma RawIsDistinct<N(!new)>(g: Graph<N>, entered: map<N, nat>, c: seq<N>)
    requires Raw(g, entered, c)
    ensures Distinct(c)
  {
    hide IsCycle;
  }

  lemma FirstEnteredFirst<N(!new)>(g: Graph<N>, entered: map<N, nat>, a: seq<N>, b: seq<N>)
    requires Raw(g, entered, a) && Raw(g, entered, b) && a != [] && b != []
    requires forall x :: x in a <==> x in b
    ensures a[0] == b[0]
  {
    hide IsCycle;
    assert a[0] in b && b[0] in a;
    var i :| 0 <= i < |b| && b[i] == a[0];
    var j :| 0 <= j < |a| && a[j] == b[0];
    assert i == 0;
  }

  lemma RotationsAgree<N(!new)>(a: seq<N>, b: seq<N>, k: nat, l: nat)
    requires k < |a| && l < |b| && Rotate(a, k) == Rotate(b, l) && a[0] == b[0] && Distinct(a)
    ensures a == b
  {
    var r, n := Rotate(a, k), |a|;
    assert n == |r| == |b|;
    var p, q := if k == 0 then 0 else n - k, if l == 0 then 0 else n - l;
    RotateMembers(a, k);
    assert r[p] == a[0] && r[q] == b[0];
    assert p == q;
    assert a == Rotate(r, p) && b == Rotate(r, q);
  }

  // ----- the closing edges hit every cycle -----

  /** Walking round a cycle of finished nodes, the finishing rank falls until an edge that
      closes a recorded cycle is crossed. */
  lemma ClosingEdgeOnCycle<N(!new)>(g: Graph<N>, cycles: seq<seq<N>>, finished: map<N, nat>, c: seq<N>)
    returns (i: nat)
    requires Ranked(g, cycles, finished) && IsCycle(g, c) && c[0] in finished
    ensures i < |c| && Closes(cycles, c[i], c[Around(|c|, i)])
  {
    i := 0;
    while !Closes(cycles, c[i], c[Around(|c|, i)])
      invariant i < |c| && c[i] in finished
      invariant finished[c[i]] + i <= finished[c[0]]
      decreases |c| - i
    {
      assert Edge(g, c[i], c[Around(|c|, i)]);
      assert Settled(cycles, finished, c[i], c[Around(|c|, i)]);
      i := i + 1;
    }
  }

  ghost function Closings<N(!new)>(cycles: seq<seq<N>>): (r: set<(N, N)>)
    ensures forall u, v :: (u, v) in r <==> Closes(cycles, u, v)
  {
    set k | 0 <= k < |cycles| && cycles[k] != [] :: ClosingEdge(cycles[k])
  }

  ghost predicate CrossesOneOf<N(!new)>(c: seq<N>, edges: set<(N, N)>) {
    exists u, v :: (u, v) in edges && Crosses(c, u, v)
  }

  ghost predicate CrossesExactlyOneOf<N(!new)>(c: seq<N>, edges: set<(N, N)>) {
    && CrossesOneOf(c, edges)
    && forall u, v, u', v' ::
         (u, v) in edges && (u', v') in edges && Crosses(c, u, v) && Crosses(c, u', v') ==> (u, v) == (u', v')
  }

  lemma ClosingsHitEveryCycle<N(!new)>(g: Graph<N>, m: Marks<N>, c: seq<N>, at: nat)
    requires Kept(g, m) && IsCycle(g, c) && at < |c| && c[at] in m.finished
    ensures CrossesOneOf(c, Closings(m.cycles))
  {
    var r := Rotate(c, at);
    RotateIsCycle(g, c, at);
    var i := ClosingEdgeOnCycle(g, m.cycles, m.finished, r);
    var u, v := r[i], r[Around(|r|, i)];
    assert Crosses(r, u, v);
    assert (u, v) in Closings(m.cycles) && Crosses(c, u, v);
  }

  lemma RawClosesOnce<N(!new)>(g: Graph<N>, entered: map<N, nat>, cycles: seq<seq<N>>, k: nat)
    requires AllRaw(g, entered, cycles) && k < |cycles|
    ensures CrossesExactlyOneOf(cycles[k], Closings(cycles))
  {
    var c := cycles[k];
    var last := |c| - 1;
    assert Raw(g, entered, c);
    assert Crosses(c, c[last], c[0]) by { assert c[Around(|c|, last)] == c[0]; }
    assert Closes(cycles, c[last], c[0]);
    assert (c[last], c[0]) in Closings(cycles);
    forall u, v | (u, v) in Closings(cycles) && Crosses(c, u, v) ensures u == c[last] && v == c[0] {
      var i :| 0 <= i < |c| && c[i] == u && c[Around(|c|, i)] == v;
      var j :| 0 <= j < |cycles| && cycles[j] != [] && ClosingEdge(cycles[j]) == (u, v);
      assert Raw(g, entered, cycles[j]);
      assert entered[u] >= entered[v];
      assert i == last;
    }
  }

  // ----- the reported list -----

  /** Normalized, sorted by rank, and without a second list of equal rank. */
  function Report<N(==, !new)>(order: map<N, nat>, cycles: seq<seq<N>>): seq<seq<N>> {
    DedupByKey(CycleKey(order), Sort(ByKey(CycleKey(order)), NormalizeAll(order, cycles)))
  }

  lemma ReportIsStrictlySorted<N(!new)>(order: map<N, nat>, cycles: seq<seq<N>>)
    ensures StrictlySorted(CycleKey(order), Report(order, cycles))
    ensures Report(order, cycles) == [] <==> cycles == []
  {
    var key := CycleKey(order);
    var all := NormalizeAll(order, cycles);
    ByKeyIsPreorder(key);
    SortSorts(ByKey(key), all);
    SortKeepsElements(ByKey(key), all);
    DedupSortsStrictly(key, Sort(ByKey(key), all));
    DedupKeepsMembers(key, Sort(ByKey(key), all));
  }

  lemma ReportedComesFromRaw<N(!new)>(order: map<N, nat>, cycles: seq<seq<N>>, c: seq<N>) returns (k: nat)
    requires c in Report(order, cycles)
    ensures k < |cycles| && c == NormalizeCycle(order, cycles[k])
  {
    var key := CycleKey(order);
    var all := NormalizeAll(order, cycles);
    SortKeepsMembers(ByKey(key), all);
    DedupKeepsMembers(key, Sort(ByKey(key), all));
    assert c in all;
    k :| 0 <= k < |all| && all[k] == c;
  }

  /** A reported cycle is a simple directed cycle that starts at its least-ordered member and
      crosses exactly one closing edge. */
  lemma ReportIsSound<N(!new)>(g: Graph<N>, entered: map<N, nat>, order: map<N, nat>, cycles: seq<seq<N>>, c: seq<N>)
    requires AllRaw(g, entered, cycles) && c in Report(order, cycles)
    ensures IsCycle(g, c) && Distinct(c) && LeastFirst(order, c)
    ensures CrossesExactlyOneOf(c, Closings(cycles))
  {
    var k := ReportedComesFromRaw(order, cycles, c);
    var raw := cycles[k];
    assert Raw(g, entered, raw);
    assert Distinct(raw);
    var at := LeastAt(order, raw);
    RotateIsCycle(g, raw, at);
    RotateMembers(raw, at);
    NormalizeLeastFirst(order, raw);
    RawClosesOnce(g, entered, cycles, k);
    assert forall u, v :: Crosses(c, u, v) <==> Crosses(raw, u, v);
  }

  lemma EqualRanksEqualCycles<N(!new)>(g: Graph<N>, nodes: seq<N>, a: seq<N>, b: seq<N>)
    requires Covers(nodes, g) && IsCycle(g, a) && IsCycle(g, b)
    requires CycleKey(OrderOf(nodes))(a) == CycleKey(OrderOf(nodes))(b)
    ensures a == b
  {
    var order := OrderOf(nodes);
    var x, y := CycleKey(order)(a), CycleKey(order)(b);
    assert |x| == |a| && |y| == |b|;
    forall i | 0 <= i < |a| ensures a[i] == b[i] {
      assert Edge(g, a[i], a[Around(|a|, i)]) && Edge(g, b[i], b[Around(|b|, i)]);
      assert x[i] == RankOf(order, a[i]) && y[i] == RankOf(order, b[i]);
    }
  }

  lemma NormalizedIsCycle<N(!new)>(g: Graph<N>, order: map<N, nat>, c: seq<N>)
    requires IsCycle(g, c)
    ensures IsCycle(g, NormalizeCycle(order, c))
    ensures forall u, v :: Crosses(NormalizeCycle(order, c), u, v) <==> Crosses(c, u, v)
  {
    RotateIsCycle(g, c, LeastAt(order, c));
  }

  /** No recorded cycle is lost to the deduplication. */
  lemma RawIsReported<N(!new)>(g: Graph<N>, entered: map<N, nat>, nodes: seq<N>, cycles: seq<seq<N>>, k: nat)
    requires AllRaw(g, entered, cycles) && Covers(nodes, g) && k < |cycles|
    ensures NormalizeCycle(OrderOf(nodes), cycles[k]) in Report(OrderOf(nodes), cycles)
  {
    var order := OrderOf(nodes);
    var key := CycleKey(order);
    var all := NormalizeAll(order, cycles);
    assert all[k] in all;
    SortKeepsMembers(ByKey(key), all);
    DedupKeepsKeys(key, Sort(ByKey(key), all), all[k]);
    var y :| y in Report(order, cycles) && key(y) == key(all[k]);
    var j := ReportedComesFromRaw(order, cycles, y);
    assert Raw(g, entered, cycles[j]) && Raw(g, entered, cycles[k]);
    NormalizedIsCycle(g, order, cycles[j]);
    NormalizedIsCycle(g, order, cycles[k]);
    EqualRanksEqualCycles(g, nodes, y, all[k]);
  }

  lemma DistinctRawDistinctKeys<N(!new)>(
    g: Graph<N>, entered: map<N, nat>, nodes: seq<N>, cycles: seq<seq<N>>, j: nat, k: nat)
    requires AllRaw(g, entered, cycles) && Covers(nodes, g) && DistinctClosings(cycles)
    requires j < k < |cycles|
    ensures var key, all := CycleKey(OrderOf(nodes)), NormalizeAll(OrderOf(nodes), cycles); key(all[j]) != key(all[k])
  {
    var order := OrderOf(nodes);
    var key, all := CycleKey(order), NormalizeAll(order, cycles);
    assert Raw(g, entered, cycles[j]) && Raw(g, entered, cycles[k]);
    assert ClosingEdge(cycles[j]) != ClosingEdge(cycles[k]);
    NormalizedIsCycle(g, order, cycles[j]);
    NormalizedIsCycle(g, order, cycles[k]);
    if all[j] == all[k] {
      RawRotationsAgree(g, entered, cycles[j], cycles[k], LeastAt(order, cycles[j]), LeastAt(order, cycles[k]));
    }
    if key(all[j]) == key(all[k]) {
      EqualRanksEqualCycles(g, nodes, all[j], all[k]);
    }
  }

  lemma ClosingsCount<N(!new)>(cycles: seq<seq<N>>)
    requires DistinctClosings(cycles)
    ensures |Closings(cycles)| == |cycles|
  {
    var edges := seq(|cycles|, k requires 0 <= k < |cycles| && cycles[k] != [] => ClosingEdge(cycles[k]));
    DistinctCount(edges);
    assert Closings(cycles) == set e | e in edges by {
      forall u, v ensures (u, v) in Closings(cycles) <==> (u, v) in edges {
        if Closes(cycles, u, v) {
          var k :| 0 <= k < |cycles| && cycles[k] != [] && ClosingEdge(cycles[k]) == (u, v);
          assert edges[k] == (u, v);
        }
      }
    }
  }

  lemma RawKeysApart<N(!new)>(g: Graph<N>, entered: map<N, nat>, nodes: seq<N>, cycles: seq<seq<N>>)
    requires AllRaw(g, entered, cycles) && Covers(nodes, g) && DistinctClosings(cycles)
    ensures KeysApart(CycleKey(OrderOf(nodes)), NormalizeAll(OrderOf(nodes), cycles))
  {
    var all := NormalizeAll(OrderOf(nodes), cycles);
    forall j, k | 0 <= j < k < |all|
      ensures CycleKey(OrderOf(nodes))(all[j]) != CycleKey(OrderOf(nodes))(all[k])
    {
      DistinctRawDistinctKeys(g, entered, nodes, cycles, j, k);
    }
  }

  /** With duplicate-free neighbour lists the deduplication removes nothing: there is exactly
      one report for each closing edge. */
  lemma OneReportPerClosingEdge<N(!new)>(g: Graph<N>, entered: map<N, nat>, nodes: seq<N>, cycles: seq<seq<N>>)
    requires AllRaw(g, entered, cycles) && Covers(nodes, g) && DistinctClosings(cycles)
    ensures |Report(OrderOf(nodes), cycles)| == |Closings(cycles)|
  {
    hide CycleKey, AllRaw, DistinctClosings, Covers;
    var key, all := CycleKey(OrderOf(nodes)), NormalizeAll(OrderOf(nodes), cycles);
    RawKeysApart(g, entered, nodes, cycles);
    SortKeepsKeysApart(key, all);
    DedupOfDistinctKeys(key, Sort(ByKey(key), all));
    SortKeepsElements(ByKey(key), all);
    ClosingsCount(cycles);
  }

  /** What the report promises, whatever the nodes and neighbour lists. */
  ghost predicate Sound<N(!new)>(nodes: seq<N>, g: Graph<N>, report: seq<seq<N>>, closing: set<(N, N)>) {
    && (forall c :: c in report ==>
          IsCycle(g, c) && Distinct(c) && LeastFirst(OrderOf(nodes), c) && CrossesExactlyOneOf(c, closing))
    && StrictlySorted(CycleKey(OrderOf(nodes)), report)
  }

  /** Every cycle that can be entered from a searched node crosses a closing edge. */
  ghost predicate Complete<N(!new)>(nodes: seq<N>, g: Graph<N>, report: seq<seq<N>>, closing: set<(N, N)>) {
    && (forall c, i :: IsCycle(g, c) && 0 <= i < |c| && c[i] in nodes ==> CrossesOneOf(c, closing))
    && (report == [] <==> closing == {})
  }

  ghost predicate OnePerClosing<N(!new)>(report: seq<seq<N>>, closing: set<(N, N)>) {
    forall u, v :: (u, v) in closing ==> exists c :: c in report && Crosses(c, u, v)
  }

  lemma MarksGiveSound<N(!new)>(nodes: seq<N>, g: Graph<N>, entered: map<N, nat>, cycles: seq<seq<N>>)
    requires AllRaw(g, entered, cycles)
    ensures Sound(nodes, g, Report(OrderOf(nodes), cycles), Closings(cycles))
  {
    hide AllRaw, LeastFirst, Report, StrictlySorted, CrossesExactlyOneOf, IsCycle, OrderOf, CycleKey;
    var order := OrderOf(nodes);
    ReportIsStrictlySorted(order, cycles);
    forall c | c in Report(order, cycles)
      ensures IsCycle(g, c) && Distinct(c) && LeastFirst(order, c) && CrossesExactlyOneOf(c, Closings(cycles))
    {
      ReportIsSound(g, entered, order, cycles, c);
    }
  }

  lemma NoClosingsNoCycles<N(!new)>(g: Graph<N>, entered: map<N, nat>, cycles: seq<seq<N>>)
    requires AllRaw(g, entered, cycles)
    ensures Closings(cycles) == {} <==> cycles == []
  {
    if cycles != [] {
      assert Raw(g, entered, cycles[0]);
      assert Closes(cycles, ClosingEdge(cycles[0]).0, ClosingEdge(cycles[0]).1);
      assert ClosingEdge(cycles[0]) in Closings(cycles);
    }
  }

  lemma MarksGiveComplete<N(!new)>(nodes: seq<N>, g: Graph<N>, m: Marks<N>)
    requires Kept(g, m) && forall n :: n in nodes ==> n in m.finished
    ensures Complete(nodes, g, Report(OrderOf(nodes), m.cycles), Closings(m.cycles))
  {
    ReportIsStrictlySorted(OrderOf(nodes), m.cycles);
    NoClosingsNoCycles(g, m.entered, m.cycles);
    hide Kept, Report, CrossesOneOf, IsCycle, OrderOf;
    forall c, i | IsCycle(g, c) && 0 <= i < |c| && c[i] in nodes ensures CrossesOneOf(c, Closings(m.cycles)) {
      ClosingsHitEveryCycle(g, m, c, i);
    }
  }

  lemma MarksGiveOnePerClosing<N(!new)>(nodes: seq<N>, g: Graph<N>, entered: map<N, nat>, cycles: seq<seq<N>>)
    requires AllRaw(g, entered, cycles) && Covers(nodes, g)
    ensures OnePerClosing(Report(OrderOf(nodes), cycles), Closings(cycles))
    ensures DistinctClosings(cycles) ==> |Report(OrderOf(nodes), cycles)| == |Closings(cycles)|
  {
    if DistinctClosings(cycles) { OneReportPerClosingEdge(g, entered, nodes, cycles); }
    hide Report, OrderOf, DistinctClosings;
    forall u, v | (u, v) in Closings(cycles)
      ensures exists c :: c in Report(OrderOf(nodes), cycles) && Crosses(c, u, v)
    {
      var k :| 0 <= k < |cycles| && cycles[k] != [] && ClosingEdge(cycles[k]) == (u, v);
      var last := |cycles[k]| - 1;
      assert Raw(g, entered, cycles[k]);
      assert cycles[k][last] == u && cycles[k][Around(|cycles[k]|, last)] == v;
      RawIsReported(g, entered, nodes, cycles, k);
      NormalizedIsCycle(g, OrderOf(nodes), cycles[k]);
      assert Crosses(NormalizeCycle(OrderOf(nodes), cycles[k]), u, v);
    }
  }

  ghost function Universe<N(!new)>(nodes: seq<N>, g: Graph<N>): (r: set<N>)
    ensures ClosedUnder(g, r) && forall n :: n in nodes ==> n in r
  {
    (set n | n in nodes) + (set u, v | u in g && v in g[u] :: v)
  }

  lemma EmptyIffAcyclic<N(!new)>(nodes: seq<N>, g: Graph<N>, report: seq<seq<N>>, closing: set<(N, N)>)
    requires Sound(nodes, g, report, closing) && Complete(nodes, g, report, closing) && Covers(nodes, g)
    ensures report == [] <==> Acyclic(g)
  {
    forall c | IsCycle(g, c) ensures report != [] {
      assert Edge(g, c[0], c[Around(|c|, 0)]);
      assert CrossesOneOf(c, closing);
    }
    if report != [] {
      assert IsCycle(g, report[0]);
    }
  }

  /** Between two searches from the list every coloured node is black, and stays so. */
  lemma NothingGrey<N(!new)>(g: Graph<N>, m: Marks<N>)
    requires Kept(g, m) && m.path == []
    ensures forall n :: n in m.state ==> n in m.finished
  {}

  lemma StaysFinished<N(!new)>(m0: Marks<N>, m1: Marks<N>)
    requires Grown(m0, m1)
    ensures forall n :: n in m0.finished ==> n in m1.finished
  {}

  /** Everything that holds of a finished search, as it is promised of the report. */
  lemma SearchGivesReport<N(!new)>(nodes: seq<N>, g: Graph<N>, m: Marks<N>)
    requires Kept(g, m) && forall n :: n in nodes ==> n in m.finished
    ensures var report, closing := Report(OrderOf(nodes), m.cycles), Closings(m.cycles);
      && Sound(nodes, g, report, closing)
      && Complete(nodes, g, report, closing)
      && (Covers(nodes, g) ==> OnePerClosing(report, closing))
      && (Covers(nodes, g) ==> (report == [] <==> Acyclic(g)))
      && (Covers(nodes, g) && DuplicateFree(g) ==> |report| == |closing|)
  {
    var report, closing := Report(OrderOf(nodes), m.cycles), Closings(m.cycles);
    hide Sound, Complete, OnePerClosing, Acyclic, DuplicateFree, Report, Closings, AllRaw, DistinctClosings,
      PathKept, Ranked, OrderOf, Covers;
    MarksGiveSound(nodes, g, m.entered, m.cycles);
    MarksGiveComplete(nodes, g, m);
    if Covers(nodes, g) {
      MarksGiveOnePerClosing(nodes, g, m.entered, m.cycles);
      EmptyIffAcyclic(nodes, g, report, closing);
    }
  }

  // ----- the node the search starts from -----

  /** Every edge back to `v` on some cycle has closed a recorded cycle. */
  ghost predicate Homing<N(!new)>(g: Graph<N>, cycles: seq<seq<N>>, v: N) {
    forall c, u :: IsCycle(g, c) && Crosses(c, u, v) ==> Closes(cycles, u, v)
  }

  lemma {:induction false} RingFinishes<N(!new)>(g: Graph<N>, m: Marks<N>, c: seq<N>, k: nat)
    requires Kept(g, m) && m.path == [] && IsCycle(g, c) && c[0] in m.finished && k < |c|
    ensures c[k] in m.finished
    decreases k
  {
    hide Kept;
    if k == 0 {
    } else {
      RingFinishes(g, m, c, k - 1);
      assert Edge(g, c[k - 1], c[Around(|c|, k - 1)]);
      EdgeFinishes(g, m, c[k - 1], c[k]);
    }
  }

  lemma EdgeFinishes<N(!new)>(g: Graph<N>, m: Marks<N>, u: N, v: N)
    requires Kept(g, m) && m.path == [] && u in m.finished && Edge(g, u, v)
    ensures v in m.finished
  {
    assert Settled(m.cycles, m.finished, u, v);
    if Closes(m.cycles, u, v) {
      var k :| 0 <= k < |m.cycles| && m.cycles[k] != [] && ClosingEdge(m.cycles[k]) == (u, v);
      assert Raw(g, m.entered, m.cycles[k]);
      assert m.cycles[k][0] in m.entered;
    }
  }

  /** A node that was searched first and finished last has all its cycles closed at itself. */
  lemma LastFinishedIsHome<N(!new)>(g: Graph<N>, m: Marks<N>, v: N)
    requires Kept(g, m) && m.path == [] && v in m.finished && m.finished[v] == |m.finished| - 1
    ensures Homing(g, m.cycles, v)
  {
    hide PathKept, AllRaw, DuplicateFree, DistinctClosings;
    forall c, u | IsCycle(g, c) && Crosses(c, u, v) ensures Closes(m.cycles, u, v) {
      var i :| 0 <= i < |c| && c[i] == u && c[Around(|c|, i)] == v;
      var at := Around(|c|, i);
      RotateIsCycle(g, c, at);
      var r, back := Rotate(c, at), if i >= at then i - at else i - at + |c|;
      RotateIndex(c, at, 0);
      RotateIndex(c, at, back);
      RingFinishes(g, m, r, back);
      assert Edge(g, c[i], c[at]);
      assert Settled(m.cycles, m.finished, u, v);
    }
  }

  lemma HomingLasts<N(!new)>(g: Graph<N>, m0: Marks<N>, m1: Marks<N>, v: N)
    requires Homing(g, m0.cycles, v) && Grown(m0, m1)
    ensures Homing(g, m1.cycles, v)
  {
    forall c, u | IsCycle(g, c) && Crosses(c, u, v) ensures Closes(m1.cycles, u, v) {
      var k :| 0 <= k < |m0.cycles| && m0.cycles[k] != [] && ClosingEdge(m0.cycles[k]) == (u, v);
      assert m1.cycles[k] == m0.cycles[k];
    }
  }

  /** What the search promises of its report and of `closing`, the set of edges it met going back
      to a node on its path. */
  ghost predicate Finds<N(!new)>(nodes: seq<N>, g: Graph<N>, report: seq<seq<N>>, closing: set<(N, N)>) {
    && Sound(nodes, g, report, closing)
    && Complete(nodes, g, report, closing)
    && (Covers(nodes, g) ==> OnePerClosing(report, closing))
    && (Covers(nodes, g) && DuplicateFree(g) ==> |report| == |closing|)
    && (nodes != [] ==> forall c, u :: IsCycle(g, c) && Crosses(c, u, nodes[0]) ==> (u, nodes[0]) in closing)
  }

  lemma HomeIsClosed<N(!new)>(g: Graph<N>, cycles: seq<seq<N>>, v: N)
    requires Homing(g, cycles, v)
    ensures forall c, u :: IsCycle(g, c) && Crosses(c, u, v) ==> (u, v) in Closings(cycles)
  {
    hide IsCycle, Crosses;
  }

  // ----- the order in which the search goes -----

  /** When each node was entered and finished, and from which node it was entered. */
  datatype Forest<N> = Forest(entered: map<N, nat>, finished: map<N, nat>, cameFrom: map<N, N>)

  /** The depth-first forest in the order of the nodes and of every list of neighbours: a node is
      entered when all before it in the list it was taken from have been, and finishes before the node
      it was entered from. */
  ghost predicate IsDepthFirst<N(!new)>(nodes: seq<N>, g: Graph<N>, f: Forest<N>) {
    && f.finished.Keys == f.entered.Keys
    && (forall n :: n in nodes ==> n in f.entered)
    && (forall u, v :: u in f.entered && Edge(g, u, v) ==> v in f.entered)
    && AllInTurn(g, f.entered, f.finished, f.cameFrom)
    && RootsInTurn(nodes, f.entered, f.cameFrom)
  }

  /** The closing edges are those to a node that finishes no earlier, and every other step of a report
      goes down the forest. */
  ghost predicate Retraces<N(!new)>(g: Graph<N>, f: Forest<N>, report: seq<seq<N>>, closing: set<(N, N)>) {
    && (forall u, v :: (u, v) in closing <==>
          u in f.finished && v in f.finished && Edge(g, u, v) && f.finished[u] <= f.finished[v])
    && (forall c, i :: c in report && 0 <= i < |c| ==> StepsDown(f, closing, c[i], c[Around(|c|, i)]))
  }

  ghost predicate StepsDown<N(!new)>(f: Forest<N>, closing: set<(N, N)>, u: N, v: N) {
    (u, v) in closing || (v in f.cameFrom && f.cameFrom[v] == u)
  }

  function Traced<N>(m: Marks<N>): Forest<N> {
    Forest(m.entered, m.finished, m.cameFrom)
  }

  lemma TracedIsDepthFirst<N(!new)>(nodes: seq<N>, g: Graph<N>, m: Marks<N>)
    requires Kept(g, m) && InOrder(g, nodes, m) && m.path == [] && forall n :: n in nodes ==> n in m.finished
    ensures IsDepthFirst(nodes, g, Traced(m))
  {
    NothingGrey(g, m);
    EnteredIsFinished(g, m);
    hide Kept, AllInTurn, RootsInTurn, Edge;
    forall u, v | u in m.entered && Edge(g, u, v) ensures v in m.entered { EdgeFinishes(g, m, u, v); }
  }

  lemma EnteredIsFinished<N(!new)>(g: Graph<N>, m: Marks<N>)
    requires Kept(g, m) && m.path == []
    ensures m.entered.Keys == m.finished.Keys
  {}

  lemma ClosingsByFinish<N(!new)>(g: Graph<N>, m: Marks<N>, u: N, v: N)
    requires Kept(g, m) && m.path == [] && CyclesDescend(m.finished, m.cameFrom, m.cycles)
    ensures (u, v) in Closings(m.cycles) <==>
      u in m.finished && v in m.finished && Edge(g, u, v) && m.finished[u] <= m.finished[v]
  {
    EnteredIsFinished(g, m);
    if Closes(m.cycles, u, v) {
      var k :| 0 <= k < |m.cycles| && m.cycles[k] != [] && ClosingEdge(m.cycles[k]) == (u, v);
      var c := m.cycles[k];
      assert Raw(g, m.entered, c) && ClosedFirst(m.finished, c);
      assert Edge(g, c[|c| - 1], c[Around(|c|, |c| - 1)]);
    } else if u in m.finished && Edge(g, u, v) {
      assert Settled(m.cycles, m.finished, u, v);
    }
  }

  lemma RawStepsDown<N(!new)>(m: Marks<N>, k: nat, j: nat)
    requires k < |m.cycles| && j < |m.cycles[k]| && Descends(m.cameFrom, m.cycles[k])
    ensures StepsDown(Traced(m), Closings(m.cycles), m.cycles[k][j], m.cycles[k][Around(|m.cycles[k]|, j)])
  {
    hide Closings;
    var raw := m.cycles[k];
    if j + 1 == |raw| {
      assert ClosingEdge(raw) == (raw[j], raw[0]);
      assert Closes(m.cycles, raw[j], raw[0]);
    } else {
      assert raw[j + 1] in m.cameFrom && m.cameFrom[raw[j + 1]] == raw[j];
    }
  }

  lemma NormalizedStepsAreRaw<N(!new)>(order: map<N, nat>, raw: seq<N>, i: nat) returns (j: nat)
    requires raw != [] && i < |raw|
    ensures
      var c := NormalizeCycle(order, raw);
      |c| == |raw| && j < |raw| && raw[j] == c[i] && raw[Around(|raw|, j)] == c[Around(|c|, i)]
  {
    hide RankOf;
    RotateCrosses(raw, LeastAt(order, raw), i);
    j :| 0 <= j < |raw| && raw[j] == NormalizeCycle(order, raw)[i]
         && raw[Around(|raw|, j)] == NormalizeCycle(order, raw)[Around(|raw|, i)];
  }

  lemma ReportStepsDown<N(!new)>(order: map<N, nat>, m: Marks<N>, c: seq<N>, i: nat)
    requires CyclesDescend(m.finished, m.cameFrom, m.cycles) && c in Report(order, m.cycles) && i < |c|
    ensures StepsDown(Traced(m), Closings(m.cycles), c[i], c[Around(|c|, i)])
  {
    var k := ReportedComesFromRaw(order, m.cycles, c);
    OneDescends(m.finished, m.cameFrom, m.cycles, k);
    hide Report, CyclesDescend, Descends, StepsDown, Closings, NormalizeCycle;
    var j := NormalizedStepsAreRaw(order, m.cycles[k], i);
    RawStepsDown(m, k, j);
  }

  lemma OneDescends<N(!new)>(finished: map<N, nat>, cameFrom: map<N, N>, cycles: seq<seq<N>>, k: nat)
    requires CyclesDescend(finished, cameFrom, cycles) && k < |cycles|
    ensures cycles[k] != [] && Descends(cameFrom, cycles[k])
  {
    assert ClosedFirst(finished, cycles[k]);
  }

  lemma SearchRetraces<N(!new)>(nodes: seq<N>, g: Graph<N>, m: Marks<N>)
    requires Kept(g, m) && InOrder(g, nodes, m) && m.path == []
    ensures Retraces(g, Traced(m), Report(OrderOf(nodes), m.cycles), Closings(m.cycles))
  {
    hide Kept, Report, OrderOf, Closings, CyclesDescend, AllInTurn, RootsInTurn, FromARoot, Edge, StepsDown;
    forall u, v
      ensures (u, v) in Closings(m.cycles) <==>
        u in m.finished && v in m.finished && Edge(g, u, v) && m.finished[u] <= m.finished[v]
    {
      ClosingsByFinish(g, m, u, v);
    }
    forall c, i | c in Report(OrderOf(nodes), m.cycles) && 0 <= i < |c|
      ensures StepsDown(Traced(m), Closings(m.cycles), c[i], c[Around(|c|, i)])
    {
      ReportStepsDown(OrderOf(nodes), m, c, i);
    }
  }

  lemma RootIsInTurn<N(!new)>(nodes: seq<N>, g: Graph<N>, m: Marks<N>, i: nat)
    requires Kept(g, m) && m.path == [] && i < |nodes| && forall j :: 0 <= j < i ==> nodes[j] in m.finished
    ensures InTurn(g, nodes, m, nodes[i])
  {
    EnteredIsFinished(g, m);
  }

  /** Reports one cycle for each edge that goes back to a node on the path, least-ordered member
      first. The ghost results are the set of those edges, without which no cycle is left, and the
      forest of the search. */
  method DetectCycles<N(==, !new)>(nodes: seq<N>, adjacency: Graph<N>)
    returns (report: seq<seq<N>>, ghost closing: set<(N, N)>, ghost forest: Forest<N>)
    ensures Finds(nodes, adjacency, report, closing)
    ensures IsDepthFirst(nodes, adjacency, forest) && Retraces(adjacency, forest, report, closing)
    ensures Covers(nodes, adjacency) ==> (report == [] <==> Acyclic(adjacency))
  {
    hide Sound, Complete, OnePerClosing, Acyclic, DuplicateFree, Kept, Grown, Covers, Report, Closings, OrderOf,
      ClosedUnder, Homing, IsCycle, Crosses, InOrder, InTurn, IsDepthFirst, Retraces;
    var search := new Search(adjacency, nodes);
    for i := 0 to |nodes|
      invariant fresh(search) && search.adjacency == adjacency && search.roots == nodes
      invariant search.Valid() && search.path == []
      invariant forall j :: 0 <= j < i ==> nodes[j] in search.finished
      invariant if i == 0 then search.state == map[] else Homing(adjacency, search.cycles, nodes[0])
    {
      ghost var m := search.Now();
      NothingGrey(adjacency, m);
      RootIsInTurn(nodes, adjacency, m, i);
      if nodes[i] !in search.state {
        search.Visit(nodes[i], Universe(nodes, adjacency));
        StaysFinished(m, search.Now());
        if i == 0 {
          LastFinishedIsHome(adjacency, search.Now(), nodes[0]);
        } else {
          HomingLasts(adjacency, m, search.Now(), nodes[0]);
        }
      }
    }
    report := Report(OrderOf(nodes), search.cycles);
    closing := Closings(search.cycles);
    forest := Traced(search.Now());
    SearchGivesReport(nodes, adjacency, search.Now());
    TracedIsDepthFirst(nodes, adjacency, search.Now());
    SearchRetraces(nodes, adjacency, search.Now());
    if nodes != [] { HomeIsClosed(adjacency, search.cycles, nodes[0]); }
  }

  // ----- the order of a report, by places in the list of nodes -----

  /** The places of the members of `c` in the list of nodes. */
  ghost predicate StandsAt<N(!new)>(nodes: seq<N>, c: seq<N>, places: seq<nat>) {
    |places| == |c| && forall i :: 0 <= i < |c| ==> places[i] < |nodes| && nodes[places[i]] == c[i]
  }

  lemma PlacesAreKeys<N(!new)>(nodes: seq<N>, c: seq<N>, places: seq<nat>)
    requires Distinct(nodes) && StandsAt(nodes, c, places)
    ensures CycleKey(OrderOf(nodes))(c) == places
  {
    hide OrderOf;
    var key := CycleKey(OrderOf(nodes))(c);
    forall i | 0 <= i < |c| ensures key[i] == places[i] {
      assert c[i] in nodes;
      assert nodes[OrderOf(nodes)[c[i]]] == nodes[places[i]];
    }
  }

  /** Of lists of distinct nodes, each reported one starts at the member that stands first among the
      nodes, and the reports follow one another in the order of their members' places. */
  lemma ReportsStandInOrder<N(!new)>(nodes: seq<N>, g: Graph<N>, report: seq<seq<N>>, closing: set<(N, N)>)
    requires Distinct(nodes) && Sound(nodes, g, report, closing)
    ensures forall c, places :: c in report && StandsAt(nodes, c, places) ==> forall i :: 0 <= i < |c| ==> places[0] <= places[i]
    ensures forall k, l, places, places' ::
      0 <= k < l < |report| && StandsAt(nodes, report[k], places) && StandsAt(nodes, report[l], places')
      ==> LexLess(places, places')
  {
    hide OrderOf, RankOf, IsCycle, CrossesExactlyOneOf;
    forall c, places | c in report && StandsAt(nodes, c, places)
      ensures forall i :: 0 <= i < |c| ==> places[0] <= places[i]
    {
      PlacesAreKeys(nodes, c, places);
      assert LeastFirst(OrderOf(nodes), c);
      forall i | 0 <= i < |c| ensures places[0] <= places[i] {
        assert CycleKey(OrderOf(nodes))(c)[i] == RankOf(OrderOf(nodes), c[i]);
        assert CycleKey(OrderOf(nodes))(c)[0] == RankOf(OrderOf(nodes), c[0]);
      }
    }
    forall k, l, places, places' |
      0 <= k < l < |report| && StandsAt(nodes, report[k], places) && StandsAt(nodes, report[l], places')
      ensures LexLess(places, places')
    {
      PlacesAreKeys(nodes, report[k], places);
      PlacesAreKeys(nodes, report[l], places');
    }
  }
}
