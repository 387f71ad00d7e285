/** The module tree, and the sibling graph each module owns. */
module ModuleTree {
  import opened Wrappers

  type DefId = nat

  /** The definitions of one crate: `parent` is missing exactly at a root, and `modules` holds
      the definitions that are modules rather than functions or blocks. */
  datatype Crate = Crate(parent: map<DefId, DefId>, modules: set<DefId>) {
    /** A definition is numbered after the one that encloses it, so no chain of parents loops. */
    ghost predicate WellFormed() {
      forall d :: d in parent ==> parent[d] < d
    }
  }

  datatype Reference = Reference(source: DefId, target: DefId)
  datatype SiblingEdge = SiblingEdge(from: DefId, to: DefId)

  // ----- ancestor chains -----

  /** The ancestors of `m` from its root down to itself. */
  function Chain(t: Crate, m: DefId): (r: seq<DefId>)
    requires t.WellFormed()
    decreases m
  {
    if m in t.parent then Chain(t, t.parent[m]) + [m] else [m]
  }

  function Reverse<T>(s: seq<T>): seq<T> {
    if s == [] then [] else Reverse(s[1..]) + [s[0]]
  }

  lemma {:induction false} ReverseConcat<T>(s: seq<T>, x: T)
    ensures Reverse(s + [x]) == [x] + Reverse(s)
  {
    if s != [] {
      ReverseConcat(s[1..], x);
      assert (s + [x])[1..] == s[1..] + [x];
    } else {
      assert s + [x] == [x];
    }
  }

  method ModuleChain(t: Crate, m: DefId) returns (chain: seq<DefId>)
    requires t.WellFormed()
    ensures chain == Chain(t, m)
  {
    var up := [m];
    var current := m;
    while current in t.parent
      invariant up != [] && up[|up| - 1] == current
      invariant Chain(t, m) == Chain(t, current) + Reverse(up[..|up| - 1])
      decreases current
    {
      ghost var below := up[..|up| - 1];
      ReverseConcat(below, current);
      assert up == below + [current];
      assert Chain(t, current) == Chain(t, t.parent[current]) + [current];
      current := t.parent[current];
      up := up + [current];
      assert up[..|up| - 1] == below + [up[|up| - 2]];
    }
    ReverseConcat(up[..|up| - 1], current);
    assert up == up[..|up| - 1] + [current];
    chain := Reverse(up);
  }

  /** A chain steps from parent to child, and every prefix of it is the chain of its last member. */
  lemma {:induction false} ChainSteps(t: Crate, m: DefId)
    requires t.WellFormed()
    ensures var c := Chain(t, m);
      && |c| > 0 && c[|c| - 1] == m && c[0] !in t.parent
      && (forall i :: 0 < i < |c| ==> c[i] in t.parent && t.parent[c[i]] == c[i - 1])
      && (forall i :: 0 <= i < |c| ==> Chain(t, c[i]) == c[..i + 1])
    decreases m
  {
    if m in t.parent {
      var p := t.parent[m];
      ChainSteps(t, p);
      var c, d := Chain(t, m), Chain(t, p);
      forall i | 0 <= i < |c| ensures Chain(t, c[i]) == c[..i + 1] {
        if i < |d| { assert c[..i + 1] == d[..i + 1]; } else { assert c[..i + 1] == c; }
      }
    }
  }

  ghost predicate Within(t: Crate, m: DefId, a: DefId)
    requires t.WellFormed()
  {
    a in Chain(t, m)
  }

  /** `a` is found on a chain at the depth of its own chain. */
  lemma FoundAtDepth(t: Crate, m: DefId, a: DefId)
    requires t.WellFormed() && Within(t, m, a)
    ensures |Chain(t, a)| <= |Chain(t, m)|
    ensures Chain(t, m)[..|Chain(t, a)|] == Chain(t, a)
    ensures Chain(t, m)[|Chain(t, a)| - 1] == a
    ensures |Chain(t, a)| == |Chain(t, m)| ==> a == m
  {}

  lemma ParentStepsChain(t: Crate, m: DefId)
    requires t.WellFormed() && m in t.parent
    ensures |Chain(t, m)| == |Chain(t, t.parent[m])| + 1
    ensures Chain(t, m)[..|Chain(t, m)| - 1] == Chain(t, t.parent[m])
    ensures Within(t, m, t.parent[m]) && Within(t, m, m)
  {}

  lemma StepUp(t: Crate, d: DefId, m: DefId)
    requires t.WellFormed() && Within(t, d, m) && m in t.parent
    ensures Within(t, d, t.parent[m])
    ensures |Chain(t, t.parent[m])| + 1 == |Chain(t, m)| <= |Chain(t, d)|
    ensures Chain(t, d)[|Chain(t, t.parent[m])|] == m
  {
    FoundAtDepth(t, d, m);
    ChainSteps(t, m);
    hide Chain;
    ParentStepsChain(t, m);
    var k := |Chain(t, m)|;
    assert Chain(t, d)[k - 1] == m;
    assert Chain(t, d)[k - 2] == Chain(t, d)[..k][k - 2] == Chain(t, m)[k - 2] == t.parent[m];
  }

  /** Nearest enclosing module: the definition itself when it is one. */
  method EnclosingModule(t: Crate, d: DefId) returns (m: DefId)
    requires t.WellFormed()
    ensures Within(t, d, m)
    ensures m in t.modules || m !in t.parent
    ensures forall i :: |Chain(t, m)| <= i < |Chain(t, d)| ==> Chain(t, d)[i] !in t.modules
  {
    m := d;
    ChainSteps(t, d);
    assert Chain(t, d)[|Chain(t, d)| - 1] == d;
    hide Chain;
    while m !in t.modules && m in t.parent
      invariant Within(t, d, m)
      invariant forall i :: |Chain(t, m)| <= i < |Chain(t, d)| ==> Chain(t, d)[i] !in t.modules
      decreases m
    {
      StepUp(t, d, m);
      m := t.parent[m];
    }
  }

  // ----- the sibling pair of one reference -----

  function Shared(a: seq<DefId>, b: seq<DefId>): (k: nat)
    ensures k <= |a| && k <= |b|
    ensures a[..k] == b[..k]
    ensures k < |a| && k < |b| ==> a[k] != b[k]
  {
    if a == [] || b == [] || a[0] != b[0] then 0
    else
      assert a == [a[0]] + a[1..] && b == [b[0]] + b[1..];
      1 + Shared(a[1..], b[1..])
  }

  /** The module that owns the edge, and the two of its children that the reference joins. */
  function SiblingOf(t: Crate, r: Reference): Option<(DefId, SiblingEdge)>
    requires t.WellFormed()
  {
    var source, target := Chain(t, r.source), Chain(t, r.target);
    var k := Shared(source, target);
    if k == 0 || k >= |source| || k >= |target| then None
    else if source[k - 1] !in t.modules then None
    else Some((source[k - 1], SiblingEdge(source[k], target[k])))
  }

  /** Two different children of one module, each enclosing one end of the reference. */
  ghost predicate JoinsSiblings(t: Crate, r: Reference, p: DefId, e: SiblingEdge)
    requires t.WellFormed()
  {
    && p in t.modules && e.from != e.to
    && e.from in t.parent && t.parent[e.from] == p && Within(t, r.source, e.from)
    && e.to in t.parent && t.parent[e.to] == p && Within(t, r.target, e.to)
  }

  lemma SharedIs(a: seq<DefId>, b: seq<DefId>, d: nat)
    requires d < |a| && d < |b| && a[..d] == b[..d] && a[d] != b[d]
    ensures Shared(a, b) == d
  {}

  lemma SiblingJoins(t: Crate, r: Reference, p: DefId, e: SiblingEdge)
    requires t.WellFormed() && SiblingOf(t, r) == Some((p, e))
    ensures JoinsSiblings(t, r, p, e)
  {
    ChainSteps(t, r.source);
    ChainSteps(t, r.target);
    hide Chain;
    var source, target := Chain(t, r.source), Chain(t, r.target);
    var k := Shared(source, target);
    assert source[k - 1] == source[..k][k - 1] == target[..k][k - 1] == target[k - 1];
  }

  lemma ChildOnChain(t: Crate, m: DefId, p: DefId, c: DefId)
    requires t.WellFormed() && Within(t, m, c) && c in t.parent && t.parent[c] == p
    ensures 0 < |Chain(t, p)| < |Chain(t, m)|
    ensures Chain(t, m)[|Chain(t, p)|] == c && Chain(t, m)[..|Chain(t, p)|] == Chain(t, p)
  {}

  lemma JoinsIsSibling(t: Crate, r: Reference, p: DefId, e: SiblingEdge)
    requires t.WellFormed() && JoinsSiblings(t, r, p, e)
    ensures SiblingOf(t, r) == Some((p, e))
  {
    hide Chain;
    var source, target, own := Chain(t, r.source), Chain(t, r.target), Chain(t, p);
    ChildOnChain(t, r.source, p, e.from);
    ChildOnChain(t, r.target, p, e.to);
    SharedIs(source, target, |own|);
    ChainSteps(t, p);
    assert source[|own| - 1] == own[|own| - 1];
  }

  /** A reference becomes an edge exactly where its two chains part below a common module, so
      a reference between ancestor and descendant never does. */
  lemma SiblingIffJoins(t: Crate, r: Reference, p: DefId, e: SiblingEdge)
    requires t.WellFormed()
    ensures SiblingOf(t, r) == Some((p, e)) <==> JoinsSiblings(t, r, p, e)
  {
    if SiblingOf(t, r) == Some((p, e)) { SiblingJoins(t, r, p, e); }
    if JoinsSiblings(t, r, p, e) { JoinsIsSibling(t, r, p, e); }
  }

  lemma {:induction false} SharedOfPrefix(a: seq<DefId>, b: seq<DefId>)
    requires a <= b
    ensures Shared(a, b) == |a| && Shared(b, a) == |a|
  {}

  /** References between a module and one that encloses it are excluded by construction. */
  lemma AncestorsNeverJoin(t: Crate, r: Reference)
    requires t.WellFormed() && (Within(t, r.source, r.target) || Within(t, r.target, r.source))
    ensures SiblingOf(t, r) == None
  {
    if Within(t, r.source, r.target) {
      FoundAtDepth(t, r.source, r.target);
      SharedOfPrefix(Chain(t, r.target), Chain(t, r.source));
    } else {
      FoundAtDepth(t, r.target, r.source);
      SharedOfPrefix(Chain(t, r.source), Chain(t, r.target));
    }
  }
}
