/** The grey/black depth-first search that looks for cycles in one sibling graph. */
module DepthFirstSearch {
  import opened Sorting

  type Graph<N(==)> = map<N, seq<N>>

  predicate Edge<N(==)>(g: Graph<N>, u: N, v: N) {
    u in g && v in g[u]
  }

  /** The position after `i` on a ring of `n` places. */
  function Around(n: nat, i: nat): nat {
    if i + 1 == n then 0 else i + 1
  }

  /** A closed directed walk, written without repeating its first node at the end. */
  ghost predicate IsCycle<N>(g: Graph<N>, c: seq<N>) {
    |c| > 0 && forall i :: 0 <= i < |c| ==> Edge(g, c[i], c[Around(|c|, i)])
  }

  /** The walk crosses the edge from `u` to `v`. */
  ghost predicate Crosses<N>(c: seq<N>, u: N, v: N) {
    exists i :: 0 <= i < |c| && c[i] == u && c[Around(|c|, i)] == v
  }

  ghost predicate Acyclic<N(!new)>(g: Graph<N>) {
    forall c :: !IsCycle(g, c)
  }

  ghost predicate DuplicateFree<N(!new)>(g: Graph<N>) {
    forall u :: u in g ==> Distinct(g[u])
  }

  /** The edge whose target was grey when the search met it. */
  function ClosingEdge<N>(c: seq<N>): (N, N)
    requires c != []
  {
    (c[|c| - 1], c[0])
  }

  datatype Color = OnPath | Finished

  // ----- what the search keeps -----

  /** Grey nodes are exactly the current path, and the path is a walk in order of entry. */
  ghost predicate PathKept<N(!new)>(g: Graph<N>, state: map<N, Color>, path: seq<N>, entered: map<N, nat>) {
    && entered.Keys == state.Keys
    && (forall n :: n in entered ==> entered[n] < |entered|)
    && (forall n :: n in path <==> n in state && state[n] == OnPath)
    && (forall i :: 0 <= i < |path| - 1 ==> Edge(g, path[i], path[i + 1]))
    && (forall i, j :: 0 <= i < j < |path| ==> entered[path[i]] < entered[path[j]])
  }

  /** A recorded cycle follows the order of entry until its closing edge. */
  ghost predicate Raw<N(!new)>(g: Graph<N>, entered: map<N, nat>, c: seq<N>) {
    && IsCycle(g, c)
    && (forall i :: 0 <= i < |c| ==> c[i] in entered)
    && (forall i, j :: 0 <= i < j < |c| ==> entered[c[i]] < entered[c[j]])
  }

  ghost predicate AllRaw<N(!new)>(g: Graph<N>, entered: map<N, nat>, cycles: seq<seq<N>>) {
    forall k :: 0 <= k < |cycles| ==> Raw(g, entered, cycles[k])
  }

  ghost predicate Closes<N(!new)>(cycles: seq<seq<N>>, u: N, v: N) {
    exists k :: 0 <= k < |cycles| && cycles[k] != [] && ClosingEdge(cycles[k]) == (u, v)
  }

  /** An edge out of a finished node closes a recorded cycle or leads to a node finished earlier. */
  ghost predicate Settled<N(!new)>(cycles: seq<seq<N>>, finished: map<N, nat>, u: N, v: N) {
    Closes(cycles, u, v) || (v in finished && (u in finished ==> finished[v] < finished[u]))
  }

  ghost predicate Ranked<N(!new)>(g: Graph<N>, cycles: seq<seq<N>>, finished: map<N, nat>) {
    && (forall n :: n in finished ==> finished[n] < |finished|)
    && (forall u, v :: u in finished && Edge(g, u, v) ==> Settled(cycles, finished, u, v))
  }

  ghost predicate DistinctClosings<N(!new)>(cycles: seq<seq<N>>) {
    && (forall k :: 0 <= k < |cycles| ==> cycles[k] != [])
    && (forall j, k :: 0 <= j < k < |cycles| ==> ClosingEdge(cycles[j]) != ClosingEdge(cycles[k]))
  }

  /** From `from` on, every cycle was closed by a node entered after the nodes of `before`. */
  ghost predicate ClosedOutside<N(!new)>(cycles: seq<seq<N>>, from: nat, before: set<N>) {
    forall k :: from <= k < |cycles| && cycles[k] != [] ==> ClosingEdge(cycles[k]).0 !in before
  }

  /** Every cycle `node` closed goes back to one of the neighbours it has looked at. */
  ghost predicate ClosedThrough<N(!new)>(cycles: seq<seq<N>>, node: N, looked: seq<N>) {
    forall k :: 0 <= k < |cycles| && cycles[k] != [] && ClosingEdge(cycles[k]).0 == node ==>
      ClosingEdge(cycles[k]).1 in looked
  }

  ghost predicate Extends<N(!new), V(!new)>(small: map<N, V>, large: map<N, V>) {
    forall n :: n in small ==> n in large && large[n] == small[n]
  }

  /** Everything the search keeps, on one set of values of its fields. */
  ghost predicate Kept<N(!new)>(g: Graph<N>, m: Marks<N>) {
    && PathKept(g, m.state, m.path, m.entered)
    && (forall n :: n in m.finished <==> n in m.state && m.state[n] == Finished)
    && AllRaw(g, m.entered, m.cycles)
    && Ranked(g, m.cycles, m.finished)
    && (DuplicateFree(g) ==> DistinctClosings(m.cycles))
  }

  /** The fields of a search at one moment: `entered` and `finished` number the moments at
      which a node turned grey and black, and `cameFrom` is the node it was entered from. */
  datatype Marks<N> = Marks(
    state: map<N, Color>, path: seq<N>, cycles: seq<seq<N>>, entered: map<N, nat>, finished: map<N, nat>,
    cameFrom: map<N, N>)

  /** Nothing coloured is forgotten, and what is new was coloured, and closed, by new nodes. */
  ghost predicate Grown<N(!new)>(m0: Marks<N>, m1: Marks<N>) {
    && Extends(m0.entered, m1.entered)
    && Extends(m0.finished, m1.finished)
    && m0.cycles <= m1.cycles
    && ClosedOutside(m1.cycles, |m0.cycles|, m0.entered.Keys)
  }

  function Enter<N(!new)>(m: Marks<N>, node: N): Marks<N> {
    m.(state := m.state[node := OnPath], path := m.path + [node], entered := m.entered[node := |m.entered|],
       cameFrom := if m.path == [] then m.cameFrom else m.cameFrom[node := m.path[|m.path| - 1]])
  }

  lemma RawLasts<N(!new)>(g: Graph<N>, entered: map<N, nat>, entered': map<N, nat>, cycles: seq<seq<N>>)
    requires AllRaw(g, entered, cycles) && Extends(entered, entered')
    ensures AllRaw(g, entered', cycles)
  {}

  lemma OrderEnters<N(!new)>(m: Marks<N>, node: N)
    requires m.entered.Keys == m.state.Keys && (forall n :: n in m.entered ==> m.entered[n] < |m.entered|)
    requires node !in m.state && forall n :: n in m.path ==> n in m.state
    requires forall i, j :: 0 <= i < j < |m.path| ==> m.entered[m.path[i]] < m.entered[m.path[j]]
    ensures
      var e := Enter(m, node);
      && |e.entered| == |m.entered| + 1
      && (forall n :: n in e.entered ==> e.entered[n] < |e.entered|)
      && (forall i, j :: 0 <= i < j < |e.path| ==> e.entered[e.path[i]] < e.entered[e.path[j]])
  {
    var e := Enter(m, node);
    forall i, j | 0 <= i < j < |e.path| ensures e.entered[e.path[i]] < e.entered[e.path[j]] {
      assert e.path[i] == m.path[i] && m.path[i] in m.path;
      if j < |m.path| { assert e.path[j] == m.path[j] && m.path[j] in m.path; }
    }
  }

  lemma WalkEnters<N(!new)>(g: Graph<N>, m: Marks<N>, node: N)
    requires forall i :: 0 <= i < |m.path| - 1 ==> Edge(g, m.path[i], m.path[i + 1])
    requires m.path != [] ==> Edge(g, m.path[|m.path| - 1], node)
    ensures var e := Enter(m, node); forall i :: 0 <= i < |e.path| - 1 ==> Edge(g, e.path[i], e.path[i + 1])
  {
    hide Edge;
  }

  lemma PathMembersEnter<N(!new)>(m: Marks<N>, node: N)
    requires forall n :: n in m.path <==> n in m.state && m.state[n] == OnPath
    ensures var e := Enter(m, node); forall n :: n in e.path <==> n in e.state && e.state[n] == OnPath
  {}

  lemma PathEnters<N(!new)>(g: Graph<N>, m: Marks<N>, node: N)
    requires PathKept(g, m.state, m.path, m.entered) && node !in m.state
    requires m.path != [] ==> Edge(g, m.path[|m.path| - 1], node)
    ensures var e := Enter(m, node); PathKept(g, e.state, e.path, e.entered) && Extends(m.entered, e.entered)
  {
    hide Edge;
    OrderEnters(m, node);
    WalkEnters(g, m, node);
    PathMembersEnter(m, node);
  }

  lemma EnterKeeps<N(!new)>(g: Graph<N>, m: Marks<N>, node: N)
    requires Kept(g, m) && node !in m.state
    requires m.path != [] ==> Edge(g, m.path[|m.path| - 1], node)
    ensures Kept(g, Enter(m, node)) && Grown(m, Enter(m, node))
  {
    hide PathKept, Ranked, AllRaw, DuplicateFree, DistinctClosings, Edge;
    PathEnters(g, m, node);
    RawLasts(g, m.entered, Enter(m, node).entered, m.cycles);
  }

  function Record<N(!new)>(m: Marks<N>, start: nat): Marks<N>
    requires start <= |m.path|
  {
    m.(cycles := m.cycles + [m.path[start..]])
  }

  lemma PathTailIsRaw<N(!new)>(g: Graph<N>, m: Marks<N>, start: nat)
    requires PathKept(g, m.state, m.path, m.entered) && start < |m.path|
    requires Edge(g, m.path[|m.path| - 1], m.path[start])
    ensures Raw(g, m.entered, m.path[start..])
  {
    var c := m.path[start..];
    forall i | 0 <= i < |c| ensures Edge(g, c[i], c[Around(|c|, i)]) && c[i] in m.entered {
      assert c[i] == m.path[start + i] && c[i] in m.path;
      if i + 1 < |c| {
        assert Edge(g, m.path[start + i], m.path[start + i + 1]);
      }
    }
  }

  /** Going back to a grey neighbour that was not looked at before records one more raw cycle. */
  lemma RecordKeeps<N(!new)>(g: Graph<N>, m: Marks<N>, start: nat, looked: seq<N>)
    requires Kept(g, m) && start < |m.path|
    requires Edge(g, m.path[|m.path| - 1], m.path[start])
    requires ClosedThrough(m.cycles, m.path[|m.path| - 1], looked)
    requires DuplicateFree(g) ==> m.path[start] !in looked
    ensures Kept(g, Record(m, start))
    ensures Closes(Record(m, start).cycles, m.path[|m.path| - 1], m.path[start])
  {
    PathTailIsRaw(g, m, start);
    hide PathKept, Raw, Ranked, DuplicateFree, DistinctClosings, ClosedThrough, Edge;
    var r := Record(m, start);
    var c := m.path[start..];
    assert ClosingEdge(c) == (m.path[|m.path| - 1], m.path[start]);
    assert r.cycles[|m.cycles|] == c;
    assert AllRaw(g, r.entered, r.cycles);
    RecordKeepsRanks(g, m, start);
    if DuplicateFree(g) { RecordClosesAnew(m, start, looked); }
  }

  lemma RecordKeepsRanks<N(!new)>(g: Graph<N>, m: Marks<N>, start: nat)
    requires Ranked(g, m.cycles, m.finished) && start < |m.path|
    ensures Ranked(g, Record(m, start).cycles, m.finished)
  {
    hide Edge, Settled;
    var cycles := Record(m, start).cycles;
    forall u, v | u in m.finished && Edge(g, u, v) ensures Settled(cycles, m.finished, u, v) {
      SettledLasts(m.cycles, cycles, m.finished, m.finished, u, v);
    }
  }

  lemma RecordClosesAnew<N(!new)>(m: Marks<N>, start: nat, looked: seq<N>)
    requires DistinctClosings(m.cycles) && start < |m.path|
    requires ClosedThrough(m.cycles, m.path[|m.path| - 1], looked) && m.path[start] !in looked
    ensures DistinctClosings(Record(m, start).cycles)
  {
    var r, n := Record(m, start).cycles, |m.cycles|;
    assert ClosingEdge(r[n]) == (m.path[|m.path| - 1], m.path[start]);
    forall k | 0 <= k < n ensures r[k] == m.cycles[k] && ClosingEdge(r[k]) != ClosingEdge(r[n]) {
      assert r[k] == m.cycles[k];
    }
  }

  lemma RecordGrows<N(!new)>(m0: Marks<N>, m: Marks<N>, start: nat)
    requires Grown(m0, m) && start < |m.path|
    requires m.path[|m.path| - 1] !in m0.entered
    ensures Grown(m0, Record(m, start))
  {}

  lemma SettledLasts<N(!new)>(
    cycles: seq<seq<N>>, cycles': seq<seq<N>>, finished: map<N, nat>, finished': map<N, nat>, u: N, v: N)
    requires Settled(cycles, finished, u, v)
    requires cycles <= cycles' && Extends(finished, finished') && (u in finished' ==> u in finished)
    ensures Settled(cycles', finished', u, v)
  {}

  function Leave<N(!new)>(m: Marks<N>, node: N): Marks<N>
    requires m.path != []
  {
    m.(state := m.state[node := Finished], path := m.path[..|m.path| - 1],
       finished := m.finished[node := |m.finished|])
  }

  lemma PathLeaves<N(!new)>(g: Graph<N>, m: Marks<N>, node: N)
    requires PathKept(g, m.state, m.path, m.entered) && m.path != [] && m.path[|m.path| - 1] == node
    ensures var l := Leave(m, node); PathKept(g, l.state, l.path, l.entered)
  {
    hide Edge;
    var l := Leave(m, node);
    var last := |m.path| - 1;
    assert node in m.state by { assert m.path[last] in m.path; }
    assert node !in l.path by {
      forall i | 0 <= i < last ensures m.path[i] != node {
        assert m.entered[m.path[i]] < m.entered[m.path[last]] by { assert m.path[i] in m.path; }
      }
    }
    forall n ensures n in l.path <==> n in l.state && l.state[n] == OnPath {
      assert m.path == l.path + [node];
    }
  }

  /** A node turns black once every edge out of it is settled. */
  lemma LeaveKeeps<N(!new)>(g: Graph<N>, m: Marks<N>, node: N)
    requires Kept(g, m) && m.path != [] && m.path[|m.path| - 1] == node
    requires forall v :: Edge(g, node, v) ==> Settled(m.cycles, m.finished, node, v)
    ensures Kept(g, Leave(m, node)) && Grown(m, Leave(m, node))
  {
    PathLeaves(g, m, node);
    var l := Leave(m, node);
    assert node in m.path;
    assert node !in m.finished;
    assert |l.finished| == |m.finished| + 1;
  }

  lemma GrownTransitive<N(!new)>(m0: Marks<N>, m1: Marks<N>, m2: Marks<N>)
    requires Grown(m0, m1) && Grown(m1, m2)
    ensures Grown(m0, m2)
  {}

  /** What holds while `node` sits on top of the path with the neighbours in `looked` behind it. */
  ghost predicate Looking<N(!new)>(g: Graph<N>, m0: Marks<N>, m: Marks<N>, node: N, looked: seq<N>) {
    && Kept(g, m) && Grown(m0, m)
    && m.path == m0.path + [node] && node !in m0.entered
    && ClosedThrough(m.cycles, node, looked)
    && (forall v :: v in looked ==> Settled(m.cycles, m.finished, node, v))
  }

  lemma TopIsGrey<N(!new)>(g: Graph<N>, m0: Marks<N>, m: Marks<N>, node: N, looked: seq<N>)
    requires Looking(g, m0, m, node, looked)
    ensures Kept(g, m)
    ensures node in m.entered && node !in m.finished && m.path[|m.path| - 1] == node
    ensures m.state.Keys == m.entered.Keys && m0.entered.Keys <= m.entered.Keys
    ensures forall n :: n in m.state ==> (m.state[n] == OnPath <==> n in m.path) && (m.state[n] == Finished <==> n in m.finished)
  {
    assert node in m.path;
  }

  /** What the colour of a neighbour says of it. */
  lemma ColourOf<N(!new)>(g: Graph<N>, m0: Marks<N>, m: Marks<N>, node: N, looked: seq<N>, next: N)
    requires Looking(g, m0, m, node, looked) && next in m.state
    ensures m.state[next] == OnPath ==> next in m.path
    ensures m.state[next] == Finished ==> next in m.finished
  {}

  lemma Ready<N(!new)>(g: Graph<N>, m0: Marks<N>, m: Marks<N>, node: N, looked: seq<N>)
    requires Looking(g, m0, m, node, looked)
    ensures Kept(g, m) && m.path != [] && m.path[|m.path| - 1] == node && m.state.Keys == m.entered.Keys
  {}

  ghost predicate ClosedUnder<N(!new)>(g: Graph<N>, universe: set<N>) {
    forall u, v :: u in universe && Edge(g, u, v) ==> v in universe
  }

  lemma NextNeighbor<N(!new)>(g: Graph<N>, universe: set<N>, node: N, i: nat)
    requires ClosedUnder(g, universe) && node in universe && node in g && i < |g[node]|
    ensures Edge(g, node, g[node][i]) && g[node][i] in universe
    ensures DuplicateFree(g) ==> g[node][i] !in g[node][..i]
    ensures g[node][..i + 1] == g[node][..i] + [g[node][i]] <= g[node]
  {}

  lemma NoneLeft<N(!new)>(g: Graph<N>, node: N, neighbors: seq<N>)
    requires neighbors == if node in g then g[node] else []
    ensures forall v :: Edge(g, node, v) ==> v in neighbors[..|neighbors|]
  {}

  lemma StartLooking<N(!new)>(g: Graph<N>, m0: Marks<N>, node: N)
    requires Kept(g, m0) && node !in m0.state
    requires m0.path != [] ==> Edge(g, m0.path[|m0.path| - 1], node)
    ensures Looking(g, m0, Enter(m0, node), node, []) && node !in m0.entered
  {
    EnterKeeps(g, m0, node);
    forall k | 0 <= k < |m0.cycles| && m0.cycles[k] != [] ensures ClosingEdge(m0.cycles[k]).0 != node {
      assert Raw(g, m0.entered, m0.cycles[k]);
    }
  }

  lemma KeepsLooking<N(!new)>(g: Graph<N>, m0: Marks<N>, m: Marks<N>, m': Marks<N>, node: N, looked: seq<N>, next: N)
    requires Looking(g, m0, m, node, looked)
    requires Kept(g, m') && Grown(m0, m') && m'.path == m.path
    requires m.cycles <= m'.cycles && Extends(m.finished, m'.finished)
    requires Settled(m'.cycles, m'.finished, node, next)
    requires ClosedThrough(m'.cycles, node, looked + [next])
    ensures Looking(g, m0, m', node, looked + [next])
  {
    assert node in m'.path;
    forall v | v in looked ensures Settled(m'.cycles, m'.finished, node, v) {
      SettledLasts(m.cycles, m'.cycles, m.finished, m'.finished, node, v);
    }
  }

  lemma LookPastBlack<N(!new)>(g: Graph<N>, m0: Marks<N>, m: Marks<N>, node: N, looked: seq<N>, next: N)
    requires Looking(g, m0, m, node, looked) && next in m.finished
    ensures Looking(g, m0, m, node, looked + [next])
  {}

  lemma LookAfterVisit<N(!new)>(
    g: Graph<N>, m0: Marks<N>, m: Marks<N>, m': Marks<N>, node: N, looked: seq<N>, next: N)
    requires Looking(g, m0, m, node, looked)
    requires Kept(g, m') && Grown(m, m') && m'.path == m.path && next in m'.finished
    ensures Looking(g, m0, m', node, looked + [next])
  {
    TopIsGrey(g, m0, m, node, looked);
    GrownTransitive(m0, m, m');
    assert node in m'.path;
    forall k | 0 <= k < |m'.cycles| && m'.cycles[k] != [] && ClosingEdge(m'.cycles[k]).0 == node
      ensures ClosingEdge(m'.cycles[k]).1 in looked + [next]
    {
      if k < |m.cycles| { assert m'.cycles[k] == m.cycles[k]; }
    }
    KeepsLooking(g, m0, m, m', node, looked, next);
  }

  lemma LookAtGrey<N(!new)>(g: Graph<N>, m0: Marks<N>, m: Marks<N>, node: N, looked: seq<N>, start: nat)
    requires Looking(g, m0, m, node, looked) && start < |m.path|
    requires Edge(g, node, m.path[start])
    requires DuplicateFree(g) ==> m.path[start] !in looked
    ensures Looking(g, m0, Record(m, start), node, looked + [m.path[start]])
  {
    hide Kept, Settled, DuplicateFree, Edge, Closes;
    TopIsGrey(g, m0, m, node, looked);
    RecordKeeps(g, m, start, looked);
    RecordGrows(m0, m, start);
    var r := Record(m, start);
    SettledByClosing(r.cycles, r.finished, node, m.path[start]);
    hide Grown;
    var c := m.path[start..];
    forall k | 0 <= k < |r.cycles| && r.cycles[k] != [] && ClosingEdge(r.cycles[k]).0 == node
      ensures ClosingEdge(r.cycles[k]).1 in looked + [m.path[start]]
    {
      if k < |m.cycles| { assert r.cycles[k] == m.cycles[k]; } else { assert r.cycles[k] == c; }
    }
    KeepsLooking(g, m0, m, r, node, looked, m.path[start]);
  }

  lemma SettledByClosing<N(!new)>(cycles: seq<seq<N>>, finished: map<N, nat>, u: N, v: N)
    requires Closes(cycles, u, v)
    ensures Settled(cycles, finished, u, v)
  {}

  lemma GrownEntered<N(!new)>(m0: Marks<N>, m1: Marks<N>)
    requires Grown(m0, m1)
    ensures m0.entered.Keys <= m1.entered.Keys
  {}

  lemma StopLooking<N(!new)>(g: Graph<N>, m0: Marks<N>, m: Marks<N>, node: N, looked: seq<N>)
    requires Looking(g, m0, m, node, looked)
    requires forall v :: Edge(g, node, v) ==> v in looked
    ensures m.path != []
    ensures Kept(g, Leave(m, node)) && Grown(m0, Leave(m, node)) && Leave(m, node).path == m0.path
    ensures var f := Leave(m, node).finished; node in f && f[node] == |f| - 1
  {
    TopIsGrey(g, m0, m, node, looked);
    LeaveKeeps(g, m, node);
    GrownTransitive(m0, m, Leave(m, node));
  }

  // ----- the order of the search -----

  /** `v` stands in the list, and everything before it had been entered before `moment`. */
  ghost predicate ComesNext<N(!new)>(list: seq<N>, entered: map<N, nat>, v: N, moment: nat) {
    exists k :: 0 <= k < |list| && list[k] == v && forall i :: 0 <= i < k ==> list[i] in entered && entered[list[i]] < moment
  }

  /** A node was entered along an edge, from a node entered before it and finished after it, and all
      neighbours before it in that node's list had been entered. */
  ghost predicate CameInTurn<N(!new)>(g: Graph<N>, entered: map<N, nat>, finished: map<N, nat>, u: N, v: N) {
    && u in g && u in entered && v in entered && entered[u] < entered[v]
    && ComesNext(g[u], entered, v, entered[v])
    && (u in finished ==> v in finished && finished[v] < finished[u])
  }

  /** Each step of the walk was entered from the one before. */
  ghost predicate Descends<N(!new)>(cameFrom: map<N, N>, walk: seq<N>) {
    forall i :: 0 < i < |walk| ==> walk[i] in cameFrom && cameFrom[walk[i]] == walk[i - 1]
  }

  /** The node that closed a cycle finishes no later than the node it goes back to. */
  ghost predicate ClosedFirst<N(!new)>(finished: map<N, nat>, c: seq<N>) {
    c != [] && (c[0] in finished ==> c[|c| - 1] in finished && finished[c[|c| - 1]] <= finished[c[0]])
  }

  ghost predicate AllInTurn<N(!new)>(g: Graph<N>, entered: map<N, nat>, finished: map<N, nat>, cameFrom: map<N, N>) {
    forall v :: v in cameFrom ==> CameInTurn(g, entered, finished, cameFrom[v], v)
  }

  /** A node that was entered from none was the next of the roots. */
  ghost predicate RootsInTurn<N(!new)>(roots: seq<N>, entered: map<N, nat>, cameFrom: map<N, N>) {
    forall v :: v in entered && v !in cameFrom ==> ComesNext(roots, entered, v, entered[v])
  }

  ghost predicate FromARoot<N(!new)>(cameFrom: map<N, N>, path: seq<N>) {
    Descends(cameFrom, path) && (path != [] ==> path[0] !in cameFrom)
  }

  ghost predicate CyclesDescend<N(!new)>(finished: map<N, nat>, cameFrom: map<N, N>, cycles: seq<seq<N>>) {
    forall k :: 0 <= k < |cycles| ==> Descends(cameFrom, cycles[k]) && ClosedFirst(finished, cycles[k])
  }

  /** What the search keeps of the order in which it goes. */
  ghost predicate InOrder<N(!new)>(g: Graph<N>, roots: seq<N>, m: Marks<N>) {
    && AllInTurn(g, m.entered, m.finished, m.cameFrom)
    && RootsInTurn(roots, m.entered, m.cameFrom)
    && FromARoot(m.cameFrom, m.path)
    && CyclesDescend(m.finished, m.cameFrom, m.cycles)
  }

  /** The node is next, among the neighbours of the top of the path or among the roots. */
  ghost predicate InTurn<N(!new)>(g: Graph<N>, roots: seq<N>, m: Marks<N>, node: N) {
    if m.path == [] then ComesNext(roots, m.entered, node, |m.entered|)
    else m.path[|m.path| - 1] in g && ComesNext(g[m.path[|m.path| - 1]], m.entered, node, |m.entered|)
  }

  lemma ComesNextLasts<N(!new)>(list: seq<N>, entered: map<N, nat>, entered': map<N, nat>, v: N, moment: nat)
    requires ComesNext(list, entered, v, moment) && Extends(entered, entered')
    ensures ComesNext(list, entered', v, moment)
  {
    var k :| 0 <= k < |list| && list[k] == v && forall i :: 0 <= i < k ==> list[i] in entered && entered[list[i]] < moment;
  }

  lemma CameInTurnLasts<N(!new)>(g: Graph<N>, entered: map<N, nat>, entered': map<N, nat>, finished: map<N, nat>, u: N, v: N)
    requires CameInTurn(g, entered, finished, u, v) && Extends(entered, entered')
    ensures CameInTurn(g, entered', finished, u, v)
  {
    hide ComesNext;
    ComesNextLasts(g[u], entered, entered', v, entered[v]);
  }

  lemma TreeEnters<N(!new)>(g: Graph<N>, m: Marks<N>, node: N)
    requires AllInTurn(g, m.entered, m.finished, m.cameFrom)
    requires node !in m.entered && node !in m.finished && node !in m.cameFrom
    requires m.path != [] ==>
      var top := m.path[|m.path| - 1];
      && top in g && top in m.entered && top !in m.finished && m.entered[top] < |m.entered|
      && ComesNext(g[top], m.entered, node, |m.entered|)
    ensures var e := Enter(m, node); AllInTurn(g, e.entered, e.finished, e.cameFrom)
  {
    var e := Enter(m, node);
    hide ComesNext;
    forall v | v in e.cameFrom ensures CameInTurn(g, e.entered, e.finished, e.cameFrom[v], v) {
      if v == node && m.path != [] {
        ComesNextLasts(g[m.path[|m.path| - 1]], m.entered, e.entered, node, |m.entered|);
      } else {
        CameInTurnLasts(g, m.entered, e.entered, m.finished, m.cameFrom[v], v);
      }
    }
  }

  lemma RootsEnter<N(!new)>(roots: seq<N>, m: Marks<N>, node: N)
    requires RootsInTurn(roots, m.entered, m.cameFrom) && node !in m.entered && node !in m.cameFrom
    requires m.path == [] ==> ComesNext(roots, m.entered, node, |m.entered|)
    ensures var e := Enter(m, node); RootsInTurn(roots, e.entered, e.cameFrom)
  {
    var e := Enter(m, node);
    hide ComesNext;
    forall v | v in e.entered && v !in e.cameFrom ensures ComesNext(roots, e.entered, v, e.entered[v]) {
      ComesNextLasts(roots, m.entered, e.entered, v, e.entered[v]);
    }
  }

  lemma DescendsLasts<N(!new)>(cameFrom: map<N, N>, cameFrom': map<N, N>, walk: seq<N>)
    requires Descends(cameFrom, walk) && Extends(cameFrom, cameFrom')
    ensures Descends(cameFrom', walk)
  {
    forall i | 0 < i < |walk| ensures walk[i] in cameFrom' && cameFrom'[walk[i]] == walk[i - 1] {
      assert walk[i] in cameFrom;
    }
  }

  lemma PathDescendsOn<N(!new)>(m: Marks<N>, node: N)
    requires FromARoot(m.cameFrom, m.path) && node !in m.cameFrom && node !in m.path
    ensures FromARoot(Enter(m, node).cameFrom, Enter(m, node).path)
  {
    var e := Enter(m, node);
    forall i | 0 < i < |e.path| ensures e.path[i] in e.cameFrom && e.cameFrom[e.path[i]] == e.path[i - 1] {
      if i < |m.path| { assert m.path[i] in m.cameFrom; }
    }
    assert m.path != [] ==> m.path[0] in m.path;
  }

  lemma CyclesDescendOn<N(!new)>(finished: map<N, nat>, cameFrom: map<N, N>, cameFrom': map<N, N>, cycles: seq<seq<N>>)
    requires CyclesDescend(finished, cameFrom, cycles) && Extends(cameFrom, cameFrom')
    ensures CyclesDescend(finished, cameFrom', cycles)
  {
    hide Descends, ClosedFirst;
    forall k | 0 <= k < |cycles| ensures Descends(cameFrom', cycles[k]) { DescendsLasts(cameFrom, cameFrom', cycles[k]); }
  }

  lemma EnterInOrder<N(!new)>(g: Graph<N>, roots: seq<N>, m: Marks<N>, node: N)
    requires Kept(g, m) && InOrder(g, roots, m) && node !in m.state && InTurn(g, roots, m, node)
    ensures InOrder(g, roots, Enter(m, node))
  {
    NotYetEntered(g, roots, m, node);
    hide Kept, ComesNext, AllInTurn, RootsInTurn, FromARoot, CyclesDescend, Extends;
    TreeEnters(g, m, node);
    RootsEnter(roots, m, node);
    PathDescendsOn(m, node);
    TreeExtends(m, node);
    CyclesDescendOn(m.finished, m.cameFrom, Enter(m, node).cameFrom, m.cycles);
  }

  lemma TreeExtends<N(!new)>(m: Marks<N>, node: N)
    requires node !in m.cameFrom
    ensures Extends(m.cameFrom, Enter(m, node).cameFrom)
  {}

  lemma NotYetEntered<N(!new)>(g: Graph<N>, roots: seq<N>, m: Marks<N>, node: N)
    requires Kept(g, m) && InOrder(g, roots, m) && node !in m.state
    ensures node !in m.entered && node !in m.finished && node !in m.cameFrom && node !in m.path
    ensures m.path != [] ==> m.path[|m.path| - 1] in m.entered && m.path[|m.path| - 1] !in m.finished
                             && m.entered[m.path[|m.path| - 1]] < |m.entered|
  {
    if m.path != [] { assert m.path[|m.path| - 1] in m.path; }
  }

  lemma RecordInOrder<N(!new)>(g: Graph<N>, roots: seq<N>, m: Marks<N>, start: nat)
    requires Kept(g, m) && InOrder(g, roots, m) && start < |m.path|
    ensures InOrder(g, roots, Record(m, start))
  {
    GreyIsNotFinished(g, m, start);
    hide Kept, AllInTurn, RootsInTurn, Descends, ClosedFirst, CyclesDescend;
    TailDescends(m.cameFrom, m.path, start);
    NotClosedYet(m.finished, m.path[start..]);
    OneMoreDescends(m.finished, m.cameFrom, m.cycles, m.path[start..]);
  }

  lemma NotClosedYet<N(!new)>(finished: map<N, nat>, c: seq<N>)
    requires c != [] && c[0] !in finished
    ensures ClosedFirst(finished, c)
  {}

  lemma OneMoreDescends<N(!new)>(finished: map<N, nat>, cameFrom: map<N, N>, cycles: seq<seq<N>>, c: seq<N>)
    requires CyclesDescend(finished, cameFrom, cycles) && Descends(cameFrom, c) && ClosedFirst(finished, c)
    ensures CyclesDescend(finished, cameFrom, cycles + [c])
  {
    hide Descends, ClosedFirst;
  }

  lemma TailDescends<N(!new)>(cameFrom: map<N, N>, walk: seq<N>, start: nat)
    requires Descends(cameFrom, walk) && start <= |walk|
    ensures Descends(cameFrom, walk[start..])
  {
    var c := walk[start..];
    forall i | 0 < i < |c| ensures c[i] in cameFrom && cameFrom[c[i]] == c[i - 1] {
      assert c[i] == walk[start + i] && c[i - 1] == walk[start + i - 1];
    }
  }

  lemma GreyIsNotFinished<N(!new)>(g: Graph<N>, m: Marks<N>, i: nat)
    requires Kept(g, m) && i < |m.path|
    ensures m.path[i] in m.entered && m.path[i] !in m.finished
  {
    assert m.path[i] in m.path;
  }

  /** Whatever was entered after the top of the path is black. */
  lemma LaterIsOffPath<N(!new)>(g: Graph<N>, m: Marks<N>, y: N)
    requires PathKept(g, m.state, m.path, m.entered) && m.path != [] && y in m.entered
    requires m.path[|m.path| - 1] in m.entered && m.entered[y] > m.entered[m.path[|m.path| - 1]]
    ensures y in m.state && m.state[y] != OnPath
  {
    hide Edge;
    var last := |m.path| - 1;
    forall i | 0 <= i < |m.path| ensures m.path[i] != y {
      assert m.path[i] in m.path;
      assert i < last ==> m.entered[m.path[i]] < m.entered[m.path[last]];
    }
  }

  lemma LaterIsFinished<N(!new)>(g: Graph<N>, m: Marks<N>, y: N)
    requires Kept(g, m) && m.path != [] && y in m.entered
    requires m.path[|m.path| - 1] in m.entered && m.entered[y] > m.entered[m.path[|m.path| - 1]]
    ensures y in m.finished && m.finished[y] < |m.finished|
  {
    LaterIsOffPath(g, m, y);
    hide AllRaw, DuplicateFree, DistinctClosings, PathKept, Edge, Settled;
  }

  lemma LeaveKeepsTurn<N(!new)>(g: Graph<N>, m: Marks<N>, node: N, u: N, v: N)
    requires Kept(g, m) && m.path != [] && m.path[|m.path| - 1] == node && node in m.entered && node !in m.finished
    requires CameInTurn(g, m.entered, m.finished, u, v)
    ensures CameInTurn(g, m.entered, Leave(m, node).finished, u, v)
  {
    hide ComesNext;
    if u == node {
      LaterIsFinished(g, m, v);
    }
    hide Kept;
  }

  lemma LeaveClosesFirst<N(!new)>(g: Graph<N>, m: Marks<N>, node: N, c: seq<N>)
    requires Kept(g, m) && m.path != [] && m.path[|m.path| - 1] == node && node in m.entered && node !in m.finished
    requires Raw(g, m.entered, c) && ClosedFirst(m.finished, c)
    ensures ClosedFirst(Leave(m, node).finished, c)
  {
    hide IsCycle;
    var last := c[|c| - 1];
    if c[0] == node && last != node {
      assert m.entered[c[0]] < m.entered[last];
      LaterIsFinished(g, m, last);
    }
    hide Kept;
  }

  lemma LeaveInOrder<N(!new)>(g: Graph<N>, roots: seq<N>, m: Marks<N>, node: N)
    requires Kept(g, m) && InOrder(g, roots, m) && m.path != [] && m.path[|m.path| - 1] == node
    ensures InOrder(g, roots, Leave(m, node))
  {
    hide Kept, AllInTurn, RootsInTurn, CyclesDescend, FromARoot;
    GreyIsNotFinished(g, m, |m.path| - 1);
    TreeLeaves(g, m, node);
    CyclesLeave(g, m, node);
    HeadDescends(m.cameFrom, m.path, |m.path| - 1);
  }

  lemma HeadDescends<N(!new)>(cameFrom: map<N, N>, walk: seq<N>, n: nat)
    requires FromARoot(cameFrom, walk) && n <= |walk|
    ensures FromARoot(cameFrom, walk[..n])
  {
    forall i | 0 < i < n ensures walk[i] in cameFrom && cameFrom[walk[i]] == walk[i - 1] {}
  }

  lemma TreeLeaves<N(!new)>(g: Graph<N>, m: Marks<N>, node: N)
    requires Kept(g, m) && m.path != [] && m.path[|m.path| - 1] == node && node in m.entered && node !in m.finished
    requires AllInTurn(g, m.entered, m.finished, m.cameFrom)
    ensures AllInTurn(g, m.entered, Leave(m, node).finished, m.cameFrom)
  {
    hide Kept, CameInTurn;
    forall v | v in m.cameFrom ensures CameInTurn(g, m.entered, Leave(m, node).finished, m.cameFrom[v], v) {
      LeaveKeepsTurn(g, m, node, m.cameFrom[v], v);
    }
  }

  lemma CyclesLeave<N(!new)>(g: Graph<N>, m: Marks<N>, node: N)
    requires Kept(g, m) && m.path != [] && m.path[|m.path| - 1] == node && node in m.entered && node !in m.finished
    requires CyclesDescend(m.finished, m.cameFrom, m.cycles)
    ensures CyclesDescend(Leave(m, node).finished, m.cameFrom, m.cycles)
  {
    hide PathKept, Ranked, DistinctClosings, DuplicateFree, Raw, Descends, ClosedFirst;
    forall k | 0 <= k < |m.cycles| ensures ClosedFirst(Leave(m, node).finished, m.cycles[k]) {
      assert Raw(g, m.entered, m.cycles[k]);
      LeaveClosesFirst(g, m, node, m.cycles[k]);
    }
  }

  /** What has been looked at has been entered. */
  lemma LookedIsEntered<N(!new)>(g: Graph<N>, m0: Marks<N>, m: Marks<N>, node: N, looked: seq<N>, v: N)
    requires Looking(g, m0, m, node, looked) && v in looked
    ensures v in m.entered && m.entered[v] < |m.entered|
  {
    assert Settled(m.cycles, m.finished, node, v);
    if Closes(m.cycles, node, v) {
      var k :| 0 <= k < |m.cycles| && m.cycles[k] != [] && ClosingEdge(m.cycles[k]) == (node, v);
      assert Raw(g, m.entered, m.cycles[k]);
      assert m.cycles[k][0] in m.entered;
    }
  }

  lemma NextIsInTurn<N(!new)>(g: Graph<N>, roots: seq<N>, m0: Marks<N>, m: Marks<N>, node: N, looked: seq<N>, next: N)
    requires Looking(g, m0, m, node, looked) && node in g && looked + [next] <= g[node]
    ensures InTurn(g, roots, m, next)
  {
    Ready(g, m0, m, node, looked);
    forall i | 0 <= i < |looked| ensures g[node][i] in m.entered && m.entered[g[node][i]] < |m.entered| {
      assert (looked + [next])[i] == looked[i];
      LookedIsEntered(g, m0, m, node, looked, looked[i]);
    }
    assert (looked + [next])[|looked|] == next;
    hide Looking;
  }

  lemma Begin<N(!new)>(g: Graph<N>, roots: seq<N>, m0: Marks<N>, node: N)
    requires Kept(g, m0) && InOrder(g, roots, m0) && node !in m0.state && InTurn(g, roots, m0, node)
    requires m0.path != [] ==> Edge(g, m0.path[|m0.path| - 1], node)
    ensures Looking(g, m0, Enter(m0, node), node, []) && node !in m0.entered && InOrder(g, roots, Enter(m0, node))
  {
    hide Looking, Kept, Edge, InOrder, InTurn, Enter;
    StartLooking(g, m0, node);
    EnterInOrder(g, roots, m0, node);
  }

  lemma End<N(!new)>(g: Graph<N>, roots: seq<N>, m0: Marks<N>, m: Marks<N>, node: N, looked: seq<N>)
    requires Looking(g, m0, m, node, looked) && InOrder(g, roots, m)
    requires forall v :: Edge(g, node, v) ==> v in looked
    ensures m.path != []
    ensures
      var l := Leave(m, node);
      && Kept(g, l) && Grown(m0, l) && l.path == m0.path && InOrder(g, roots, l)
      && node in l.finished && l.finished[node] == |l.finished| - 1
  {
    hide Looking, Kept, Grown, Edge, InOrder, Leave;
    StopLooking(g, m0, m, node, looked);
    Ready(g, m0, m, node, looked);
    LeaveInOrder(g, roots, m, node);
  }

  // ----- the search itself -----

  class Search<N(==, !new)> {
    const adjacency: Graph<N>
    var state: map<N, Color>
    var path: seq<N>
    var cycles: seq<seq<N>>
    ghost var entered: map<N, nat>    // the moment each node turned grey
    ghost var finished: map<N, nat>   // the moment each node turned black
    ghost var cameFrom: map<N, N>     // the node each one was entered from
    ghost const roots: seq<N>         // the nodes searched from, in order

    ghost function Now(): Marks<N>
      reads this
    {
      Marks(state, path, cycles, entered, finished, cameFrom)
    }

    ghost predicate Valid()
      reads this
    {
      Kept(adjacency, Now()) && InOrder(adjacency, roots, Now())
    }

    constructor (adjacency: Graph<N>, ghost roots: seq<N>)
      ensures this.adjacency == adjacency && this.roots == roots && Valid()
      ensures state == map[] && path == [] && cycles == [] && entered == map[]
    {
      this.adjacency := adjacency;
      this.roots := roots;
      state, path, cycles := map[], [], [];
      entered, finished, cameFrom := map[], map[], map[];
    }

    method Visit(node: N, ghost universe: set<N>)
      requires Valid() && node in universe && node !in state && ClosedUnder(adjacency, universe)
      requires path != [] ==> Edge(adjacency, path[|path| - 1], node)
      requires InTurn(adjacency, roots, Now(), node)
      modifies this
      ensures Valid() && path == old(path)
      ensures Grown(old(Now()), Now()) && node in finished && finished[node] == |finished| - 1
      decreases universe - entered.Keys, 0
    {
      hide Looking, Kept, Grown, DuplicateFree, ClosedUnder, Edge, InOrder, InTurn;
      ghost var m0 := Now();
      Begin(adjacency, roots, m0, node);
      if path != [] { cameFrom := cameFrom[node := path[|path| - 1]]; }
      state := state[node := OnPath];
      path := path + [node];
      entered := entered[node := |entered|];

      var neighbors := if node in adjacency then adjacency[node] else [];
      for i := 0 to |neighbors|
        invariant Looking(adjacency, m0, Now(), node, neighbors[..i])
        invariant InOrder(adjacency, roots, Now())
        invariant node in entered && m0.entered.Keys <= entered.Keys
      {
        NextNeighbor(adjacency, universe, node, i);
        LookAt(neighbors[i], node, m0, neighbors[..i], universe);
      }
      NoneLeft(adjacency, node, neighbors);
      End(adjacency, roots, m0, Now(), node, neighbors[..|neighbors|]);

      path := path[..|path| - 1];
      state := state[node := Finished];
      finished := finished[node := |finished|];
    }

    /** One neighbour of the node on top of the path: entered when it is new, a cycle when it is on
        the path, passed over when it is finished. */
    method LookAt(next: N, ghost node: N, ghost m0: Marks<N>, ghost looked: seq<N>, ghost universe: set<N>)
      requires Looking(adjacency, m0, Now(), node, looked) && Edge(adjacency, node, next)
      requires next in universe && ClosedUnder(adjacency, universe) && (DuplicateFree(adjacency) ==> next !in looked)
      requires InOrder(adjacency, roots, Now()) && node in adjacency && looked + [next] <= adjacency[node]
      modifies this
      ensures Looking(adjacency, m0, Now(), node, looked + [next]) && InOrder(adjacency, roots, Now())
      ensures old(entered).Keys <= entered.Keys
      decreases universe - entered.Keys, 1
    {
      hide Looking, Kept, Grown, DuplicateFree, ClosedUnder, Edge, InOrder, InTurn;
      ghost var m := Now();
      Ready(adjacency, m0, m, node, looked);
      NextIsInTurn(adjacency, roots, m0, m, node, looked, next);
      if next in state {
        ColourOf(adjacency, m0, m, node, looked, next);
        if state[next] == OnPath {
          ghost var start := RecordCycle(next);
          LookAtGrey(adjacency, m0, m, node, looked, start);
          RecordInOrder(adjacency, roots, m, start);
        } else {
          LookPastBlack(adjacency, m0, m, node, looked, next);
        }
      } else {
        Visit(next, universe);
        LookAfterVisit(adjacency, m0, m, Now(), node, looked, next);
        GrownEntered(m, Now());
      }
    }

    method RecordCycle(next: N) returns (ghost from: nat)
      requires next in path
      modifies `cycles
      ensures from < |path| && path[from] == next && Now() == Record(old(Now()), from)
    {
      var start := Position(next);
      from := start;
      cycles := cycles + [path[start..]];
    }

    method Position(next: N) returns (start: nat)
      requires next in path
      ensures start < |path| && path[start] == next && next !in path[..start]
    {
      start := 0;
      while path[start] != next
        invariant start < |path| && next !in path[..start]
        decreases |path| - start
      {
        start := start + 1;
      }
    }
  }
}
