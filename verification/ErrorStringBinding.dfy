/** Binding a pattern field by field, in the lint's order, against what its variables receive. */
module ErrorStringBinding {
  import opened Wrappers
  import opened ErrorStrings
  import opened ErrorStringValues

  // ----- what the lint goes by -----

  /** The part the lint pairs a field with: tuple fields from the front, whatever the `..`. */
  function Paired(p: Pat, m: nat, i: nat): (j: nat)
    requires SideBySide(p) && i < Arity(p)
  {
    if !p.Slice? then i
    else
      var n := Min(|p.before|, m);
      var k := Min(|p.after|, m - n);
      if i < |p.before| then i
      else if i - |p.before| < k then m - k + (i - |p.before|)
      else m
  }

  /** The last of the elements that the lint leaves to the middle of a slice pattern. */
  predicate LastOfMiddle(p: Pat, m: nat, k: nat) {
    && p.Slice?
    && var n := Min(|p.before|, m);
       n <= k && k + Min(|p.after|, m - n) + 1 == m
  }

  /** The status of `x` after binding `e` to the pattern goes by `w`. */
  ghost predicate GoesBy(p: Pat, e: Expr, x: HirId, w: Expr)
    decreases p, 1
  {
    || (x in Vars(p) && w in Sources(e))
    || (TakesApart(p, e) && (GoesByField(p, Parts(e), x, w) || GoesByLast(p, Parts(e), x, w)))
    || (p.Binding? && p.sub.Some? && GoesBy(p.sub.value, e, x, w))
    || (p.Indirect? && GoesBy(p.inner, e, x, w))
  }

  ghost predicate GoesByField(p: Pat, es: seq<Expr>, x: HirId, w: Expr)
    requires SideBySide(p)
    decreases p, 0
  {
    exists i :: 0 <= i < Arity(p) && Paired(p, |es|, i) < |es| && GoesBy(FieldAt(p, i), es[Paired(p, |es|, i)], x, w)
  }

  ghost predicate GoesByLast(p: Pat, es: seq<Expr>, x: HirId, w: Expr) {
    && p.Slice? && p.rest.Some? && x in Vars(p.rest.value)
    && exists k :: 0 <= k < |es| && LastOfMiddle(p, |es|, k) && w in Sources(es[k])
  }

  ghost predicate Tracks(s: set<HirId>, p: Pat, e: Expr, x: HirId) {
    exists w :: GoesBy(p, e, x, w) && Tainted(s, w)
  }

  // ----- patterns -----

  ghost predicate Apart(ps: seq<Pat>) {
    forall i, j :: 0 <= i < j < |ps| ==> Vars(ps[i]) !! Vars(ps[j])
  }

  predicate IsRest(p: Pat) {
    p.Leaf? || (p.Binding? && (p.sub == None || p.sub == Some(Leaf)))
  }

  /** No variable is bound twice, and the middle of a slice is a binder or nothing. */
  ghost predicate WellFormed(p: Pat)
    decreases p
  {
    match p
    case Binding(id, sub) => sub.Some? ==> id !in Vars(sub.value) && WellFormed(sub.value)
    case Tuple(fields, _) => Apart(fields) && AllWellFormed(fields)
    case TupleStruct(_, fields, _) => Apart(fields) && AllWellFormed(fields)
    case Slice(before, rest, after) =>
      && Apart(before) && AllWellFormed(before) && Apart(after) && AllWellFormed(after)
      && AllVars(before) !! AllVars(after)
      && (rest.Some? ==> IsRest(rest.value) && Vars(rest.value) !! AllVars(before) && Vars(rest.value) !! AllVars(after))
    case Indirect(inner) => WellFormed(inner)
    case _ => true
  }

  ghost predicate AllWellFormed(ps: seq<Pat>)
    decreases ps
  {
    forall i :: 0 <= i < |ps| ==> WellFormed(ps[i])
  }

  lemma {:induction false} VarsOfOne(ps: seq<Pat>, i: nat)
    requires i < |ps|
    ensures Vars(ps[i]) <= AllVars(ps)
  {
    if i == 0 {
    } else {
      VarsOfOne(ps[1..], i - 1);
    }
  }

  lemma {:induction false} OneHasVar(ps: seq<Pat>, x: HirId) returns (i: nat)
    requires x in AllVars(ps)
    ensures i < |ps| && x in Vars(ps[i])
  {
    if x in Vars(ps[0]) {
      i := 0;
    } else {
      var j := OneHasVar(ps[1..], x);
      i := j + 1;
    }
  }

  lemma FieldVars(p: Pat, i: nat)
    requires SideBySide(p) && i < Arity(p)
    ensures Vars(FieldAt(p, i)) <= Vars(p)
  {
    if !p.Slice? { VarsOfOne(p.fields, i); }
    else if i < |p.before| { VarsOfOne(p.before, i); }
    else { VarsOfOne(p.after, i - |p.before|); }
  }

  /** Two fields never bind the same variable, nor does the middle of a slice bind one of theirs. */
  lemma FieldsApart(p: Pat, i: nat, j: nat)
    requires SideBySide(p) && WellFormed(p) && i < j < Arity(p)
    ensures Vars(FieldAt(p, i)) !! Vars(FieldAt(p, j))
  {
    if p.Slice? && i < |p.before| <= j {
      VarsOfOne(p.before, i);
      VarsOfOne(p.after, j - |p.before|);
    }
  }

  lemma OneField(p: Pat, i: nat, j: nat, x: HirId)
    requires SideBySide(p) && WellFormed(p) && i < Arity(p) && j < Arity(p)
    requires x in Vars(FieldAt(p, i)) && x in Vars(FieldAt(p, j))
    ensures i == j
  {
    hide WellFormed, FieldAt, Vars;
    if i < j { FieldsApart(p, i, j); } else if j < i { FieldsApart(p, j, i); }
  }

  lemma MiddleApart(p: Pat, i: nat)
    requires p.Slice? && p.rest.Some? && WellFormed(p) && i < Arity(p)
    ensures Vars(FieldAt(p, i)) !! Vars(p.rest.value)
  {
    if i < |p.before| { VarsOfOne(p.before, i); } else { VarsOfOne(p.after, i - |p.before|); }
  }

  // ----- nothing comes from elsewhere -----

  lemma {:induction false} LocalsOfOne(es: seq<Expr>, k: nat)
    requires k < |es|
    ensures Locals(es[k]) <= AllLocals(es)
  {
    if k == 0 {
    } else {
      LocalsOfOne(es[1..], k - 1);
    }
  }

  lemma {:induction false} SourceLocals(e: Expr, v: Expr)
    requires v in Sources(e)
    ensures Locals(v) <= Locals(e)
    decreases e, 0
  {
    match e
    case Forward(receiver) => SourceLocals(receiver, v);
    case Wrap(inner) => SourceLocals(inner, v);
    case Block(tail) => SourceLocals(tail.value, v);
    case If(thn, els) =>
      if v in Sources(thn) { SourceLocals(thn, v); } else { SourceLocals(els.value, v); }
    case Match(arms) => SomeSourceLocals(arms, v);
    case _ =>
  }

  lemma {:induction false} SomeSourceLocals(es: seq<Expr>, v: Expr)
    requires v in AllSources(es)
    ensures Locals(v) <= AllLocals(es)
    decreases es, 0
  {
    if v in Sources(es[0]) { SourceLocals(es[0], v); } else { SomeSourceLocals(es[1..], v); }
  }

  lemma {:induction false} GoesByLocals(p: Pat, e: Expr, x: HirId, w: Expr)
    requires GoesBy(p, e, x, w)
    ensures Locals(w) <= Locals(e) && x in Vars(p)
    decreases p, 1
  {
    if x in Vars(p) && w in Sources(e) {
      SourceLocals(e, w);
    } else if TakesApart(p, e) {
      PartLocals(e);
      if GoesByField(p, Parts(e), x, w) { FieldGoesByLocals(p, Parts(e), x, w); } else { LastLocals(p, Parts(e), x, w); }
    } else if p.Binding? {
      GoesByLocals(p.sub.value, e, x, w);
    } else {
      GoesByLocals(p.inner, e, x, w);
    }
  }

  lemma PartLocals(e: Expr)
    requires e.Tup? || e.Call? || e.Array?
    ensures Locals(e) == AllLocals(Parts(e))
  {}

  lemma {:induction false} FieldGoesByLocals(p: Pat, es: seq<Expr>, x: HirId, w: Expr)
    requires SideBySide(p) && GoesByField(p, es, x, w)
    ensures Locals(w) <= AllLocals(es) && x in Vars(p)
    decreases p, 0
  {
    hide GoesBy, Vars, Locals, AllLocals, Paired, FieldAt;
    var i :| 0 <= i < Arity(p) && Paired(p, |es|, i) < |es| && GoesBy(FieldAt(p, i), es[Paired(p, |es|, i)], x, w);
    GoesByLocals(FieldAt(p, i), es[Paired(p, |es|, i)], x, w);
    FieldVars(p, i);
    LocalsOfOne(es, Paired(p, |es|, i));
  }

  lemma LastLocals(p: Pat, es: seq<Expr>, x: HirId, w: Expr)
    requires GoesByLast(p, es, x, w)
    ensures Locals(w) <= AllLocals(es) && x in Vars(p)
  {
    hide Locals, AllLocals, LastOfMiddle;
    var k :| 0 <= k < |es| && LastOfMiddle(p, |es|, k) && w in Sources(es[k]);
    SourceLocals(es[k], w);
    LocalsOfOne(es, k);
  }

  // ----- what binding leaves alone -----

  lemma {:induction false} BindTouchesOnlyVars(s: set<HirId>, p: Pat, e: Expr, y: HirId)
    requires y !in Vars(p)
    ensures y in BindFrom(s, p, e) <==> y in s
    decreases p, 0, 0
  {
    if IsErrorString(s, e) {
    } else if Meets(p, e) {
      ZipTouchesOnlyVars(s, p.fields, Parts(e), y);
    } else if p.Slice? && e.Array? {
      var n := Min(|p.before|, |e.elements|);
      var left := e.elements[n..];
      var m := |left| - Min(|p.after|, |left|);
      var t1 := BindZip(s, p.before, e.elements[..n]);
      var t2 := if p.rest.Some? then BindEach(t1, p.rest.value, left[..m]) else t1;
      ZipTouchesOnlyVars(s, p.before, e.elements[..n], y);
      if p.rest.Some? { EachTouchesOnlyVars(t1, p.rest.value, left[..m], y); }
      ZipTouchesOnlyVars(t2, p.after, left[m..], y);
    } else if p.Binding? && p.sub.Some? {
      BindTouchesOnlyVars(s - {p.id}, p.sub.value, e, y);
    } else if p.Indirect? {
      BindTouchesOnlyVars(s, p.inner, e, y);
    }
  }

  lemma {:induction false} ZipTouchesOnlyVars(s: set<HirId>, ps: seq<Pat>, es: seq<Expr>, y: HirId)
    requires y !in AllVars(ps)
    ensures y in BindZip(s, ps, es) <==> y in s
    decreases ps, 0, 0
  {
    if ps == [] || es == [] {
    } else {
      BindTouchesOnlyVars(s, ps[0], es[0], y);
      ZipTouchesOnlyVars(BindFrom(s, ps[0], es[0]), ps[1..], es[1..], y);
    }
  }

  lemma {:induction false} EachTouchesOnlyVars(s: set<HirId>, p: Pat, es: seq<Expr>, y: HirId)
    requires y !in Vars(p)
    ensures y in BindEach(s, p, es) <==> y in s
    decreases p, 1, |es|
  {
    if es == [] {
    } else {
      BindTouchesOnlyVars(s, p, es[0], y);
      EachTouchesOnlyVars(BindFrom(s, p, es[0]), p, es[1..], y);
    }
  }

  /** Whether an expression is an error string depends on the locals it reads alone. */
  lemma {:induction false} DependsOnLocals(s: set<HirId>, t: set<HirId>, e: Expr)
    requires forall y :: y in Locals(e) ==> (y in s <==> y in t)
    ensures IsErrorString(s, e) <==> IsErrorString(t, e)
    decreases e, 0
  {
    match e
    case Forward(receiver) => DependsOnLocals(s, t, receiver);
    case Wrap(inner) => DependsOnLocals(s, t, inner);
    case Block(tail) => if tail.Some? { DependsOnLocals(s, t, tail.value); }
    case If(thn, els) =>
      DependsOnLocals(s, t, thn);
      if els.Some? { DependsOnLocals(s, t, els.value); }
    case Match(arms) => AllDependOnLocals(s, t, arms);
    case _ =>
  }

  lemma {:induction false} AllDependOnLocals(s: set<HirId>, t: set<HirId>, es: seq<Expr>)
    requires forall y :: y in AllLocals(es) ==> (y in s <==> y in t)
    ensures AnyErrorString(s, es) <==> AnyErrorString(t, es)
    decreases es, 0
  {
    if es == [] {
    } else {
      DependsOnLocals(s, t, es[0]);
      AllDependOnLocals(s, t, es[1..]);
    }
  }

  lemma TracksByLocals(s: set<HirId>, t: set<HirId>, p: Pat, e: Expr, x: HirId)
    requires forall y :: y in Locals(e) ==> (y in s <==> y in t)
    ensures Tracks(s, p, e, x) <==> Tracks(t, p, e, x)
  {
    hide GoesBy;
    forall w | GoesBy(p, e, x, w) ensures Tainted(s, w) <==> Tainted(t, w) {
      GoesByLocals(p, e, x, w);
      if w.Path? && w.res.LocalRes? { assert w.res.id in Locals(w); }
    }
  }

  // ----- the lint's order comes to what it goes by -----

  lemma {:induction false} BindingGoesBy(s: set<HirId>, p: Pat, e: Expr, x: HirId)
    requires WellFormed(p) && Locals(e) !! Vars(p) && s !! Vars(p) && x in Vars(p)
    ensures x in BindFrom(s, p, e) <==> Tracks(s, p, e, x)
    decreases p, 1
  {
    ErrorStringIffASourceIs(s, e);
    if IsErrorString(s, e) {
      var k :| 0 <= k < |Sources(e)| && Tainted(s, Sources(e)[k]);
      assert GoesBy(p, e, x, Sources(e)[k]);
    } else {
      assert forall w :: w in Sources(e) ==> !Tainted(s, w);
      if Meets(p, e) {
        TupleGoesBy(s, p, e, x);
      } else if p.Slice? && e.Array? {
        SliceGoesBy(s, p, e, x);
      } else if p.Binding? {
        if p.sub.Some? { SubpatternGoesBy(s, p, e, x); }
      } else if p.Indirect? {
        BindingGoesBy(s, p.inner, e, x);
        InnerGoesBy(p, e, x);
      }
    }
  }

  lemma InnerGoesBy(p: Pat, e: Expr, x: HirId)
    requires p.Indirect?
    ensures forall w :: GoesBy(p, e, x, w) <==> GoesBy(p.inner, e, x, w)
  {}

  lemma {:induction false} SubpatternGoesBy(s: set<HirId>, p: Pat, e: Expr, x: HirId)
    requires WellFormed(p) && Locals(e) !! Vars(p) && s !! Vars(p) && x in Vars(p)
    requires p.Binding? && p.sub.Some? && !IsErrorString(s, e)
    ensures x in BindFrom(s, p, e) <==> Tracks(s, p, e, x)
    decreases p, 0
  {
    ErrorStringIffASourceIs(s, e);
    var q := p.sub.value;
    assert s - {p.id} == s;
    if x == p.id {
      BindTouchesOnlyVars(s, q, e, x);
      forall w | GoesBy(p, e, x, w) ensures w in Sources(e) {
        if GoesBy(q, e, x, w) { GoesByLocals(q, e, x, w); }
      }
    } else {
      hide GoesBy;
      BindingGoesBy(s, q, e, x);
      SubGoesBy(p, e, x);
    }
  }

  lemma SubGoesBy(p: Pat, e: Expr, x: HirId)
    requires p.Binding? && p.sub.Some? && x != p.id
    ensures forall w :: GoesBy(p, e, x, w) <==> GoesBy(p.sub.value, e, x, w)
  {}

  // ----- fields -----

  /** A variable goes by what its own field is paired with and nothing else. */
  lemma FieldDecides(p: Pat, es: seq<Expr>, i: nat, x: HirId, w: Expr)
    requires SideBySide(p) && WellFormed(p) && i < Arity(p) && x in Vars(FieldAt(p, i))
    ensures GoesByField(p, es, x, w) <==>
      Paired(p, |es|, i) < |es| && GoesBy(FieldAt(p, i), es[Paired(p, |es|, i)], x, w)
    ensures !GoesByLast(p, es, x, w)
  {
    hide GoesBy, WellFormed, FieldAt, Paired, Vars, GoesByLast;
    if GoesByField(p, es, x, w) { var j := FieldOfGoesBy(p, es, i, x, w); }
    if p.Slice? && p.rest.Some? { MiddleApart(p, i); }
    NotByLast(p, es, x, w);
  }

  lemma FieldOfGoesBy(p: Pat, es: seq<Expr>, i: nat, x: HirId, w: Expr) returns (j: nat)
    requires SideBySide(p) && WellFormed(p) && i < Arity(p) && x in Vars(FieldAt(p, i)) && GoesByField(p, es, x, w)
    ensures i == j && Paired(p, |es|, j) < |es| && GoesBy(FieldAt(p, j), es[Paired(p, |es|, j)], x, w)
  {
    hide GoesBy, WellFormed, FieldAt, Paired, Vars, Locals, AllLocals, SideBySide;
    j :| 0 <= j < Arity(p) && Paired(p, |es|, j) < |es| && GoesBy(FieldAt(p, j), es[Paired(p, |es|, j)], x, w);
    GoesByLocals(FieldAt(p, j), es[Paired(p, |es|, j)], x, w);
    OneField(p, i, j, x);
  }

  lemma NotByLast(p: Pat, es: seq<Expr>, x: HirId, w: Expr)
    requires p.Slice? && p.rest.Some? ==> x !in Vars(p.rest.value)
    ensures !GoesByLast(p, es, x, w)
  {}

  lemma MiddleDecides(p: Pat, es: seq<Expr>, x: HirId, w: Expr)
    requires p.Slice? && p.rest.Some? && WellFormed(p) && x in Vars(p.rest.value)
    ensures !GoesByField(p, es, x, w)
  {
    hide GoesBy, WellFormed, FieldAt, Paired;
    if GoesByField(p, es, x, w) {
      var j :| 0 <= j < Arity(p) && Paired(p, |es|, j) < |es| && GoesBy(FieldAt(p, j), es[Paired(p, |es|, j)], x, w);
      GoesByLocals(FieldAt(p, j), es[Paired(p, |es|, j)], x, w);
      MiddleApart(p, j);
    }
  }

  lemma {:induction false} ZipGoesBy(s: set<HirId>, ps: seq<Pat>, es: seq<Expr>, i: nat, x: HirId)
    requires Apart(ps) && AllWellFormed(ps) && AllLocals(es) !! AllVars(ps) && s !! AllVars(ps)
    requires i < |ps| && x in Vars(ps[i])
    ensures x in BindZip(s, ps, es) <==> i < |es| && Tracks(s, ps[i], es[i], x)
    decreases ps, 2
  {
    hide GoesBy, Tracks, WellFormed;
    VarsOfOne(ps, i);
    if es == [] {
    } else {
      var s1 := BindFrom(s, ps[0], es[0]);
      if i == 0 {
        BindingGoesBy(s, ps[0], es[0], x);
        forall j | 0 <= j < |ps[1..]| ensures x !in Vars(ps[1..][j]) {}
        if x in AllVars(ps[1..]) { var j := OneHasVar(ps[1..], x); }
        ZipTouchesOnlyVars(s1, ps[1..], es[1..], x);
      } else {
        LaterStateIsFresh(s, ps, es);
        ZipGoesBy(s1, ps[1..], es[1..], i - 1, x);
        if i < |es| { EarlierFieldLeaves(s, ps, es, i, x); }
      }
    }
  }

  lemma LaterStateIsFresh(s: set<HirId>, ps: seq<Pat>, es: seq<Expr>)
    requires Apart(ps) && AllWellFormed(ps) && s !! AllVars(ps) && ps != [] && es != []
    ensures Apart(ps[1..]) && AllWellFormed(ps[1..]) && BindFrom(s, ps[0], es[0]) !! AllVars(ps[1..])
  {
    hide BindFrom, WellFormed;
    forall y | y in AllVars(ps[1..]) ensures y !in BindFrom(s, ps[0], es[0]) {
      var j := OneHasVar(ps[1..], y);
      assert ps[1..][j] == ps[j + 1];
      BindTouchesOnlyVars(s, ps[0], es[0], y);
    }
  }

  lemma EarlierFieldLeaves(s: set<HirId>, ps: seq<Pat>, es: seq<Expr>, i: nat, x: HirId)
    requires AllLocals(es) !! AllVars(ps) && 0 < i < |ps| && i < |es|
    ensures Tracks(BindFrom(s, ps[0], es[0]), ps[i], es[i], x) <==> Tracks(s, ps[i], es[i], x)
  {
    hide BindFrom, Tracks;
    var s1 := BindFrom(s, ps[0], es[0]);
    LocalsOfOne(es, i);
    VarsOfOne(ps, 0);
    forall y | y in Locals(es[i]) ensures y in s1 <==> y in s { BindTouchesOnlyVars(s, ps[0], es[0], y); }
    TracksByLocals(s1, s, ps[i], es[i], x);
  }

  lemma {:induction false} TupleGoesBy(s: set<HirId>, p: Pat, e: Expr, x: HirId)
    requires WellFormed(p) && Locals(e) !! Vars(p) && s !! Vars(p) && x in Vars(p)
    requires Meets(p, e) && !IsErrorString(s, e)
    ensures x in BindFrom(s, p, e) <==> Tracks(s, p, e, x)
    decreases p, 0
  {
    var es := Parts(e);
    var i := OneHasVar(p.fields, x);
    ZipGoesBy(s, p.fields, es, i, x);
    hide GoesBy, GoesByField, GoesByLast, WellFormed, BindZip, Vars;
    forall w | Tainted(s, w)
      ensures GoesBy(p, e, x, w) <==> i < |es| && GoesBy(p.fields[i], es[i], x, w)
    {
      FieldDecides(p, es, i, x, w);
      AppliesToFields(p, e, x, w);
    }
  }

  /** No expression with parts is an error string itself. */
  lemma AppliesToFields(p: Pat, e: Expr, x: HirId, w: Expr)
    requires TakesApart(p, e) && Opaque(w)
    ensures GoesBy(p, e, x, w) <==> GoesByField(p, Parts(e), x, w) || GoesByLast(p, Parts(e), x, w)
  {
    hide GoesByField, GoesByLast;
    assert Sources(e) == [e];
  }

  // ----- slices -----

  /** The binder of a slice's middle keeps the status the last of the middle gives it. */
  lemma {:induction false} RestFollowsItsLast(s: set<HirId>, q: Pat, es: seq<Expr>, x: HirId)
    requires IsRest(q) && x in Vars(q) && x !in AllLocals(es)
    ensures x in BindEach(s, q, es) <==> if es == [] then x in s else IsErrorString(s, es[|es| - 1])
    decreases |es|
  {
    if es == [] {
    } else {
      var s1 := BindFrom(s, q, es[0]);
      assert x in s1 <==> IsErrorString(s, es[0]) by { BindRest(s, q, es[0]); }
      RestFollowsItsLast(s1, q, es[1..], x);
      if |es| > 1 {
        var last := es[|es| - 1];
        LocalsOfOne(es, |es| - 1);
        forall y | y in Locals(last) ensures y in s1 <==> y in s { BindTouchesOnlyVars(s, q, es[0], y); }
        DependsOnLocals(s1, s, last);
      }
    }
  }

  lemma BindRest(s: set<HirId>, q: Pat, e: Expr)
    requires IsRest(q) && q.Binding?
    ensures BindFrom(s, q, e) == if IsErrorString(s, e) then s + {q.id} else s - {q.id}
    ensures Vars(q) == {q.id}
  {
    hide IsErrorString;
    if q.sub.Some? { assert BindFrom(s - {q.id}, Leaf, e) <= s - {q.id}; }
  }

  lemma {:induction false} LocalsOfSlice(es: seq<Expr>, lo: nat, hi: nat)
    requires lo <= hi <= |es|
    ensures AllLocals(es[lo..hi]) <= AllLocals(es)
  {
    if es == [] || hi == 0 {
      assert es[lo..hi] == [];
    } else if lo == 0 {
      LocalsOfSlice(es[1..], 0, hi - 1);
      TailOfFront(es, hi);
    } else {
      LocalsOfSlice(es[1..], lo - 1, hi - 1);
      SliceOfTail(es, lo, hi);
    }
  }

  lemma TailOfFront(es: seq<Expr>, hi: nat)
    requires 0 < hi <= |es|
    ensures es[0..hi][0] == es[0] && es[0..hi][1..] == es[1..][0..hi - 1]
  {}

  lemma SliceOfTail(es: seq<Expr>, lo: nat, hi: nat)
    requires 0 < lo <= hi <= |es|
    ensures es[lo..hi] == es[1..][lo - 1..hi - 1]
  {
    var a, b := es[lo..hi], es[1..][lo - 1..hi - 1];
    forall k | 0 <= k < |a| ensures a[k] == b[k] { assert es[1..][lo - 1 + k] == es[lo + k]; }
  }

  lemma LocalsOfEnds(es: seq<Expr>, n: nat, k: nat)
    requires n <= |es| && k <= |es|
    ensures AllLocals(es[..n]) <= AllLocals(es) && AllLocals(es[k..]) <= AllLocals(es)
  {
    hide AllLocals;
    LocalsOfSlice(es, 0, n);
    LocalsOfSlice(es, k, |es|);
    assert es[0..n] == es[..n] && es[k..|es|] == es[k..];
  }

  function FrontLength(p: Pat, m: nat): (n: nat)
    requires p.Slice?
    ensures n <= m
  {
    Min(|p.before|, m)
  }

  function BackStart(p: Pat, m: nat): (k: nat)
    requires p.Slice?
    ensures FrontLength(p, m) <= k <= m
  {
    m - Min(|p.after|, m - FrontLength(p, m))
  }

  function AfterFront(s: set<HirId>, p: Pat, es: seq<Expr>): set<HirId>
    requires p.Slice?
  {
    BindZip(s, p.before, es[..FrontLength(p, |es|)])
  }

  function AfterMiddle(s: set<HirId>, p: Pat, es: seq<Expr>): set<HirId>
    requires p.Slice?
  {
    var t, middle := AfterFront(s, p, es), es[FrontLength(p, |es|)..BackStart(p, |es|)];
    if p.rest.Some? then BindEach(t, p.rest.value, middle) else t
  }

  lemma SliceBinds(s: set<HirId>, p: Pat, e: Expr)
    requires p.Slice? && e.Array? && !IsErrorString(s, e)
    ensures BindFrom(s, p, e) == BindZip(AfterMiddle(s, p, e.elements), p.after, e.elements[BackStart(p, |e.elements|)..])
  {
    var es, n := e.elements, FrontLength(p, |e.elements|);
    var left := es[n..];
    var m := |left| - Min(|p.after|, |left|);
    hide BindZip, BindEach;
    assert left[..m] == es[n..BackStart(p, |es|)] && left[m..] == es[BackStart(p, |es|)..];
  }

  /** Front and middle leave everything but their own variables alone. */
  lemma MiddleTouches(s: set<HirId>, p: Pat, es: seq<Expr>, y: HirId)
    requires p.Slice? && y !in AllVars(p.before) && (p.rest.Some? ==> y !in Vars(p.rest.value))
    ensures y in AfterMiddle(s, p, es) <==> y in s
    ensures y in AfterFront(s, p, es) <==> y in s
  {
    hide BindZip, BindEach;
    var n := FrontLength(p, |es|);
    ZipTouchesOnlyVars(s, p.before, es[..n], y);
    if p.rest.Some? { EachTouchesOnlyVars(AfterFront(s, p, es), p.rest.value, es[n..BackStart(p, |es|)], y); }
  }

  lemma {:induction false} FrontGoesBy(s: set<HirId>, p: Pat, es: seq<Expr>, i: nat, x: HirId)
    requires p.Slice? && WellFormed(p) && AllLocals(es) !! Vars(p) && s !! Vars(p)
    requires i < |p.before| && x in Vars(p.before[i])
    ensures x in BindZip(AfterMiddle(s, p, es), p.after, es[BackStart(p, |es|)..]) <==>
      i < |es| && Tracks(s, p.before[i], es[i], x)
    decreases p, 0, 0
  {
    hide BindZip, BindEach, Tracks;
    var n, b := FrontLength(p, |es|), BackStart(p, |es|);
    LocalsOfEnds(es, n, b);
    VarsOfOne(p.before, i);
    ZipGoesBy(s, p.before, es[..n], i, x);
    if p.rest.Some? { EachTouchesOnlyVars(AfterFront(s, p, es), p.rest.value, es[n..b], x); }
    ZipTouchesOnlyVars(AfterMiddle(s, p, es), p.after, es[b..], x);
  }

  lemma MiddleGoesBy(s: set<HirId>, p: Pat, es: seq<Expr>, x: HirId)
    requires p.Slice? && p.rest.Some? && WellFormed(p) && AllLocals(es) !! Vars(p) && s !! Vars(p)
    requires x in Vars(p.rest.value)
    ensures
      var n, b := FrontLength(p, |es|), BackStart(p, |es|);
      x in BindZip(AfterMiddle(s, p, es), p.after, es[b..]) <==> n < b && IsErrorString(s, es[b - 1])
  {
    hide BindZip, BindEach, IsErrorString;
    var n, b := FrontLength(p, |es|), BackStart(p, |es|);
    var t, middle := AfterFront(s, p, es), es[n..b];
    LocalsOfSlice(es, n, b);
    ZipTouchesOnlyVars(s, p.before, es[..n], x);
    RestFollowsItsLast(t, p.rest.value, middle, x);
    ZipTouchesOnlyVars(AfterMiddle(s, p, es), p.after, es[b..], x);
    if n < b {
      LocalsOfOne(es, b - 1);
      forall y | y in Locals(es[b - 1]) ensures y in t <==> y in s { ZipTouchesOnlyVars(s, p.before, es[..n], y); }
      DependsOnLocals(t, s, es[b - 1]);
    }
  }

  lemma {:induction false} BackGoesBy(s: set<HirId>, p: Pat, es: seq<Expr>, j: nat, x: HirId)
    requires p.Slice? && WellFormed(p) && AllLocals(es) !! Vars(p) && s !! Vars(p)
    requires j < |p.after| && x in Vars(p.after[j])
    ensures
      var b := BackStart(p, |es|);
      x in BindZip(AfterMiddle(s, p, es), p.after, es[b..]) <==> b + j < |es| && Tracks(s, p.after[j], es[b + j], x)
    decreases p, 0, 0
  {
    hide BindZip, BindEach, Tracks, AfterMiddle, AfterFront;
    var t, b := AfterMiddle(s, p, es), BackStart(p, |es|);
    LocalsOfEnds(es, 0, b);
    forall y | y in AllVars(p.after) ensures y !in t { MiddleTouches(s, p, es, y); }
    ZipGoesBy(t, p.after, es[b..], j, x);
    if b + j < |es| {
      LocalsOfOne(es, b + j);
      forall y | y in Locals(es[b + j]) ensures y in t <==> y in s { MiddleTouches(s, p, es, y); }
      TracksByLocals(t, s, p.after[j], es[b + j], x);
    }
  }

  lemma {:induction false} SliceFieldGoesBy(s: set<HirId>, p: Pat, e: Expr, i: nat, x: HirId)
    requires p.Slice? && e.Array? && !IsErrorString(s, e)
    requires WellFormed(p) && Locals(e) !! Vars(p) && s !! Vars(p) && i < Arity(p) && x in Vars(FieldAt(p, i))
    ensures
      var es, j := e.elements, Paired(p, |e.elements|, i);
      x in BindFrom(s, p, e) <==> j < |es| && Tracks(s, FieldAt(p, i), es[j], x)
    decreases p, 0, 1
  {
    hide BindZip, BindEach, Tracks, WellFormed, BindFrom, AfterMiddle, IsErrorString;
    SliceBinds(s, p, e);
    if i < |p.before| {
      FrontGoesBy(s, p, e.elements, i, x);
    } else {
      BackGoesBy(s, p, e.elements, i - |p.before|, x);
    }
  }

  lemma {:induction false} SliceGoesBy(s: set<HirId>, p: Pat, e: Expr, x: HirId)
    requires WellFormed(p) && Locals(e) !! Vars(p) && s !! Vars(p) && x in Vars(p)
    requires p.Slice? && e.Array? && !IsErrorString(s, e)
    ensures x in BindFrom(s, p, e) <==> Tracks(s, p, e, x)
    decreases p, 0, 2
  {
    hide BindFrom, WellFormed, GoesBy, GoesByField, GoesByLast, Paired;
    var es := e.elements;
    if p.rest.Some? && x in Vars(p.rest.value) {
      MiddleOfSliceGoesBy(s, p, e, x);
    } else {
      var i := FieldOfSlice(p, x);
      SliceFieldGoesBy(s, p, e, i, x);
      forall w | Tainted(s, w)
        ensures GoesBy(p, e, x, w) <==> Paired(p, |es|, i) < |es| && GoesBy(FieldAt(p, i), es[Paired(p, |es|, i)], x, w)
      {
        FieldDecides(p, es, i, x, w);
        AppliesToFields(p, e, x, w);
      }
    }
  }

  lemma FieldOfSlice(p: Pat, x: HirId) returns (i: nat)
    requires p.Slice? && x in Vars(p) && !(p.rest.Some? && x in Vars(p.rest.value))
    ensures i < Arity(p) && x in Vars(FieldAt(p, i))
  {
    if x in AllVars(p.before) {
      i := OneHasVar(p.before, x);
    } else {
      var j := OneHasVar(p.after, x);
      i := |p.before| + j;
    }
  }

  lemma MiddleOfSliceGoesBy(s: set<HirId>, p: Pat, e: Expr, x: HirId)
    requires WellFormed(p) && Locals(e) !! Vars(p) && s !! Vars(p)
    requires p.Slice? && e.Array? && !IsErrorString(s, e) && p.rest.Some? && x in Vars(p.rest.value)
    ensures x in BindFrom(s, p, e) <==> Tracks(s, p, e, x)
  {
    hide BindFrom, WellFormed, GoesBy, GoesByField, AfterMiddle, BindZip;
    var es := e.elements;
    var n, b := FrontLength(p, |es|), BackStart(p, |es|);
    SliceBinds(s, p, e);
    MiddleGoesBy(s, p, es, x);
    if n < b { ErrorStringIffASourceIs(s, es[b - 1]); }
    forall w | Tainted(s, w)
      ensures GoesBy(p, e, x, w) <==> n < b && w in Sources(es[b - 1])
    {
      MiddleDecides(p, es, x, w);
      AppliesToFields(p, e, x, w);
      LastIsBeforeTheBack(p, |es|);
    }
  }

  lemma LastIsBeforeTheBack(p: Pat, m: nat)
    requires p.Slice?
    ensures forall k: nat :: LastOfMiddle(p, m, k) <==> FrontLength(p, m) <= k && k + 1 == BackStart(p, m)
  {}

  // ----- where the lint is right -----

  /** Some expression that the lint sees no part of may reach a variable of the pattern. */
  ghost predicate Reaches(p: Pat, e: Expr) {
    exists x, w :: Opaque(w) && Receives(p, e, x, w)
  }

  /** The lint lets the status of some variable go by such an expression. */
  ghost predicate Follows(p: Pat, e: Expr) {
    exists x, w :: Opaque(w) && GoesBy(p, e, x, w)
  }

  /** A value with parts may stand where the pattern takes it apart, though the lint does not. */
  ghost predicate Overlooks(p: Pat, e: Expr) {
    exists v, x, w :: v in Sources(e) && !Opaque(v) && Gets(p, v, x, w) && Opaque(w)
  }

  /** The pattern meets what it takes apart: a constructor stands in front of its own pattern, with no
      borrow, block or branch between; each field is paired with the part it receives; no struct or
      or-pattern takes a value apart; and of a slice's middle only the last can be a string. */
  ghost predicate Met(p: Pat, e: Expr)
    decreases p, 1
  {
    if TakesApart(p, e) then
      && (forall i :: 0 <= i < Arity(p) ==> FieldMet(p, Parts(e), i))
      && (p.Slice? && p.rest.Some? && Vars(p.rest.value) != {} ==> MiddleMet(p, Parts(e)))
    else if p.Binding? then p.sub.Some? ==> Met(p.sub.value, e)
    else if p.Indirect? then Met(p.inner, e)
    else !Overlooks(p, e)
  }

  ghost predicate FieldMet(p: Pat, es: seq<Expr>, i: nat)
    requires SideBySide(p) && i < Arity(p)
    decreases p, 0
  {
    var q, m := FieldAt(p, i), |es|;
    var j, k := Place(p, m, i), Paired(p, m, i);
    if j == k then j < m ==> Met(q, es[j])
    else (j < m ==> !Reaches(q, es[j])) && (k < m ==> !Follows(q, es[k]))
  }

  ghost predicate MiddleMet(p: Pat, es: seq<Expr>)
    requires p.Slice?
  {
    forall k, w :: 0 <= k < |es| && InMiddle(p, |es|, k) && !LastOfMiddle(p, |es|, k) && w in Sources(es[k]) ==> !Opaque(w)
  }

  lemma {:induction false} GetsIntoVars(p: Pat, v: Expr, x: HirId, w: Expr)
    requires Gets(p, v, x, w)
    ensures x in Vars(p)
    decreases p, 1
  {
    match p
    case Binding(id, sub) => if sub.Some? && Gets(sub.value, v, x, w) { GetsIntoVars(sub.value, v, x, w); }
    case Indirect(inner) => GetsIntoVars(inner, v, x, w);
    case Or(alternatives) =>
      var i :| 0 <= i < |alternatives| && Gets(alternatives[i], v, x, w);
      GetsIntoVars(alternatives[i], v, x, w);
      VarsOfOne(alternatives, i);
    case Struct(ctor, names, fields) =>
      if v.Literal? && v.ctor == ctor {
        var i, u :| 0 <= i < |fields| && i < |names| && u in FieldSources(v, names[i]) && Gets(fields[i], u, x, w);
        GetsIntoVars(fields[i], u, x, w);
        VarsOfOne(fields, i);
      }
    case Leaf =>
    case _ =>
      if TakesApart(p, v) && GetsField(p, Parts(v), x, w) { GetsFieldIntoVars(p, Parts(v), x, w); }
  }

  lemma {:induction false} GetsFieldIntoVars(p: Pat, es: seq<Expr>, x: HirId, w: Expr)
    requires SideBySide(p) && GetsField(p, es, x, w)
    ensures x in Vars(p)
    decreases p, 0
  {
    hide Gets, Vars, FieldAt, Place, Sources;
    var i :| 0 <= i < Arity(p) && Place(p, |es|, i) < |es| && Receives(FieldAt(p, i), es[Place(p, |es|, i)], x, w);
    var u :| u in Sources(es[Place(p, |es|, i)]) && Gets(FieldAt(p, i), u, x, w);
    GetsIntoVars(FieldAt(p, i), u, x, w);
    FieldVars(p, i);
  }

  /** Of a value that cannot be seen into, every variable gets a part that cannot be seen. */
  lemma {:induction false} OpaqueIsKept(p: Pat, v: Expr, x: HirId, w: Expr)
    requires Opaque(v) && x in Vars(p)
    ensures Gets(p, v, x, w) <==> w == v
    decreases p
  {
    match p
    case Binding(id, sub) => if sub.Some? && x in Vars(sub.value) { OpaqueIsKept(sub.value, v, x, w); }
      else if sub.Some? && Gets(sub.value, v, x, w) { GetsIntoVars(sub.value, v, x, w); }
    case Indirect(inner) => OpaqueIsKept(inner, v, x, w);
    case Or(alternatives) => OpaqueIsKeptByEach(alternatives, v, x, w);
    case _ => OpaqueIsNotTakenApart(p, v, x, w);
  }

  lemma OpaqueIsNotTakenApart(p: Pat, v: Expr, x: HirId, w: Expr)
    requires Opaque(v) && !p.Binding? && !p.Indirect? && !p.Or?
    ensures Gets(p, v, x, w) <==> x in Vars(p) && w == v
  {
    hide GetsField, GetsMiddle, FieldSources, Vars;
  }

  lemma {:induction false} OpaqueIsKeptByEach(ps: seq<Pat>, v: Expr, x: HirId, w: Expr)
    requires Opaque(v) && x in AllVars(ps)
    ensures (exists i :: 0 <= i < |ps| && Gets(ps[i], v, x, w)) <==> w == v
    decreases ps
  {
    hide Gets, Opaque, Vars, AllVars;
    var i := OneHasVar(ps, x);
    OpaqueIsKept(ps[i], v, x, w);
    if j :| 0 <= j < |ps| && Gets(ps[j], v, x, w) {
      GetsIntoVars(ps[j], v, x, w);
      OpaqueIsKept(ps[j], v, x, w);
    }
  }

  lemma BinderReceives(p: Pat, e: Expr, x: HirId, w: Expr)
    requires p.Binding?
    ensures Receives(p, e, x, w) <==>
      (x == p.id && w in Sources(e)) || (p.sub.Some? && Receives(p.sub.value, e, x, w))
  {
    if x == p.id && w in Sources(e) { assert Gets(p, w, x, w); }
    if p.sub.Some? {
      if v :| v in Sources(e) && Gets(p.sub.value, v, x, w) { assert Gets(p, v, x, w); }
    }
  }

  lemma InnerReceives(p: Pat, e: Expr, x: HirId, w: Expr)
    requires p.Indirect?
    ensures Receives(p, e, x, w) <==> Receives(p.inner, e, x, w)
  {
    forall v ensures Gets(p, v, x, w) <==> Gets(p.inner, v, x, w) {}
  }

  lemma LastIsInMiddle(p: Pat, m: nat, k: nat)
    requires LastOfMiddle(p, m, k)
    ensures InMiddle(p, m, k)
  {}

  lemma MiddleGoesByItsLast(p: Pat, es: seq<Expr>, x: HirId, w: Expr)
    requires Opaque(w) && (p.Slice? && p.rest.Some? && Vars(p.rest.value) != {} ==> MiddleMet(p, es))
    ensures GoesByLast(p, es, x, w) <==> GetsMiddle(p, es, x, w)
  {
    hide InMiddle, LastOfMiddle;
    if GoesByLast(p, es, x, w) {
      var k :| 0 <= k < |es| && LastOfMiddle(p, |es|, k) && w in Sources(es[k]);
      LastIsInMiddle(p, |es|, k);
    }
  }

  lemma {:induction false} FieldsGoByTheirValues(p: Pat, es: seq<Expr>, x: HirId, w: Expr)
    requires SideBySide(p) && Opaque(w) && forall i :: 0 <= i < Arity(p) ==> FieldMet(p, es, i)
    ensures GoesByField(p, es, x, w) <==> GetsField(p, es, x, w)
    decreases p, 0, 1
  {
    hide GoesBy, Receives, FieldMet, FieldAt, Place, Paired;
    var m := |es|;
    if GoesByField(p, es, x, w) {
      var i :| 0 <= i < Arity(p) && Paired(p, m, i) < m && GoesBy(FieldAt(p, i), es[Paired(p, m, i)], x, w);
      FieldGoesByItsValue(p, es, i, x, w);
    }
    if GetsField(p, es, x, w) {
      var i :| 0 <= i < Arity(p) && Place(p, m, i) < m && Receives(FieldAt(p, i), es[Place(p, m, i)], x, w);
      FieldGoesByItsValue(p, es, i, x, w);
    }
  }

  lemma {:induction false} FieldGoesByItsValue(p: Pat, es: seq<Expr>, i: nat, x: HirId, w: Expr)
    requires SideBySide(p) && Opaque(w) && i < Arity(p) && FieldMet(p, es, i)
    ensures
      var q, j, k := FieldAt(p, i), Place(p, |es|, i), Paired(p, |es|, i);
      (k < |es| && GoesBy(q, es[k], x, w)) <==> (j < |es| && Receives(q, es[j], x, w))
    decreases p, 0, 0
  {
    hide GoesBy, Receives, Met, Place, Paired;
    var j, k := Place(p, |es|, i), Paired(p, |es|, i);
    if j == k < |es| { MetGoesByTheValue(FieldAt(p, i), es[j], x, w); }
  }

  /** Where the pattern meets what it takes apart, the lint goes by what the variable receives. */
  lemma {:induction false} MetGoesByTheValue(p: Pat, e: Expr, x: HirId, w: Expr)
    requires Met(p, e) && Opaque(w)
    ensures GoesBy(p, e, x, w) <==> Receives(p, e, x, w)
    decreases p, 1
  {
    if TakesApart(p, e) {
      AppliesToFields(p, e, x, w);
      FieldsGoByTheirValues(p, Parts(e), x, w);
      MiddleGoesByItsLast(p, Parts(e), x, w);
      TakenApartReceives(p, e, x, w);
    } else if p.Binding? {
      BinderReceives(p, e, x, w);
      if p.sub.Some? { MetGoesByTheValue(p.sub.value, e, x, w); }
    } else if p.Indirect? {
      MetGoesByTheValue(p.inner, e, x, w);
      InnerReceives(p, e, x, w);
    } else {
      WholeGoesByTheValue(p, e, x, w);
    }
  }

  lemma TakenApartReceives(p: Pat, e: Expr, x: HirId, w: Expr)
    requires TakesApart(p, e)
    ensures Receives(p, e, x, w) <==> GetsField(p, Parts(e), x, w) || GetsMiddle(p, Parts(e), x, w)
  {
    hide GetsField, GetsMiddle;
    assert Sources(e) == [e];
    assert Gets(p, e, x, w) <==> GetsField(p, Parts(e), x, w) || GetsMiddle(p, Parts(e), x, w);
  }

  lemma WholeGoesBySources(p: Pat, e: Expr, x: HirId, w: Expr)
    requires !TakesApart(p, e) && !p.Binding? && !p.Indirect?
    ensures GoesBy(p, e, x, w) <==> x in Vars(p) && w in Sources(e)
  {}

  lemma WholeGoesByTheValue(p: Pat, e: Expr, x: HirId, w: Expr)
    requires !TakesApart(p, e) && !p.Binding? && !p.Indirect? && !Overlooks(p, e) && Opaque(w)
    ensures GoesBy(p, e, x, w) <==> Receives(p, e, x, w)
  {
    hide Gets, Sources, Vars, GoesBy, Opaque;
    WholeGoesBySources(p, e, x, w);
    if v :| v in Sources(e) && Gets(p, v, x, w) {
      GetsIntoVars(p, v, x, w);
      OpaqueIsKept(p, v, x, w);
    }
    if x in Vars(p) { OpaqueIsKept(p, w, x, w); }
  }

  /** The status every variable of the pattern ends with is the one it deserves. */
  ghost predicate Right(p: Pat, e: Expr) {
    forall s: set<HirId>, x: HirId | s !! Vars(p) && x in Vars(p) :: x in BindFrom(s, p, e) <==> Deserves(s, p, e, x)
  }

  /** A variable ends tracked exactly when something it may receive was an error string before any of
      the pattern was bound. */
  lemma VariableFollowsItsValue(s: set<HirId>, p: Pat, e: Expr, x: HirId)
    requires WellFormed(p) && Met(p, e) && Locals(e) !! Vars(p) && s !! Vars(p) && x in Vars(p)
    ensures x in BindFrom(s, p, e) <==> Deserves(s, p, e, x)
  {
    hide GoesBy, Receives, Met, WellFormed, BindFrom;
    BindingGoesBy(s, p, e, x);
    forall w | Tainted(s, w) ensures GoesBy(p, e, x, w) <==> Receives(p, e, x, w) { MetGoesByTheValue(p, e, x, w); }
  }

  /** Binding a pattern in order comes to binding it at once: its own variables follow what they
      receive in the prior state, every other variable keeps its status. */
  lemma BindingFollowsTheValues(s: set<HirId>, p: Pat, e: Expr)
    requires WellFormed(p) && Met(p, e) && Locals(e) !! Vars(p) && s !! Vars(p)
    ensures forall x :: x in BindFrom(s, p, e) <==> if x in Vars(p) then Deserves(s, p, e, x) else x in s
  {
    hide BindFrom, Deserves, Met, WellFormed;
    forall x ensures x in BindFrom(s, p, e) <==> if x in Vars(p) then Deserves(s, p, e, x) else x in s {
      if x in Vars(p) { VariableFollowsItsValue(s, p, e, x); } else { BindTouchesOnlyVars(s, p, e, x); }
    }
  }
}
