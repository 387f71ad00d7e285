/** Where the lint is right about a pattern and an initialiser, exactly. */
module ErrorStringLimits {
  import opened Wrappers
  import opened ErrorStrings
  import opened ErrorStringValues
  import opened ErrorStringBinding

  // ----- initialisers whose every leaf is a local of its own -----

  /** How often a leaf is no local, or a local stands at two leaves. */
  ghost function Faults(e: Expr): nat {
    match e
    case Path(resolved, res) => if resolved && res.LocalRes? then 0 else 1
    case ToString(_, _) => 1
    case Forward(receiver) => Faults(receiver)
    case Wrap(inner) => Faults(inner)
    case Block(tail) => if tail.Some? then Faults(tail.value) else 0
    case If(thn, els) => Faults(thn) + if els.Some? then Faults(els.value) + Clash(Locals(thn), Locals(els.value)) else 0
    case Match(arms) => AllFaults(arms)
    case Tup(exprs) => AllFaults(exprs)
    case Call(_, args) => AllFaults(args)
    case Array(elements) => AllFaults(elements)
    case Literal(_, _, values, base) =>
      AllFaults(values) + if base.Some? then Faults(base.value) + Clash(Locals(base.value), AllLocals(values)) else 0
    case Other => 1
  }

  ghost function AllFaults(es: seq<Expr>): nat {
    if es == [] then 0 else Faults(es[0]) + AllFaults(es[1..]) + Clash(Locals(es[0]), AllLocals(es[1..]))
  }

  ghost function Clash(a: set<HirId>, b: set<HirId>): nat {
    if a !! b then 0 else 1
  }

  ghost predicate Spread(e: Expr) {
    Faults(e) == 0
  }

  ghost predicate AllSpread(es: seq<Expr>) {
    AllFaults(es) == 0
  }

  lemma {:induction false} SpreadAt(es: seq<Expr>, i: nat)
    requires AllSpread(es) && i < |es|
    ensures Spread(es[i])
  {
    if i == 0 {
    } else {
      SpreadAt(es[1..], i - 1);
    }
  }

  lemma {:induction false} SpreadApart(es: seq<Expr>, i: nat, j: nat)
    requires AllSpread(es) && i < j < |es|
    ensures Locals(es[i]) !! Locals(es[j])
  {
    if i == 0 {
      LocalsOfOne(es[1..], j - 1);
    } else {
      SpreadApart(es[1..], i - 1, j - 1);
    }
  }

  lemma {:induction false} SourceIsSpread(e: Expr, v: Expr)
    requires Spread(e) && v in Sources(e)
    ensures Spread(v)
    decreases e, 0
  {
    match e
    case Forward(receiver) => SourceIsSpread(receiver, v);
    case Wrap(inner) => SourceIsSpread(inner, v);
    case Block(tail) => SourceIsSpread(tail.value, v);
    case If(thn, els) =>
      if v in Sources(thn) { SourceIsSpread(thn, v); } else { SourceIsSpread(els.value, v); }
    case Match(arms) => SomeSourceIsSpread(arms, v);
    case _ =>
  }

  lemma {:induction false} SomeSourceIsSpread(es: seq<Expr>, v: Expr)
    requires AllSpread(es) && v in AllSources(es)
    ensures Spread(v)
    decreases es, 0
  {
    if v in Sources(es[0]) { SourceIsSpread(es[0], v); } else { SomeSourceIsSpread(es[1..], v); }
  }

  /** Two sources of a spread initialiser read nothing in common. */
  lemma {:induction false} SourcesApart(e: Expr, v: Expr, w: Expr)
    requires Spread(e) && v in Sources(e) && w in Sources(e) && v != w
    ensures Locals(v) !! Locals(w)
    decreases e, 0
  {
    match e
    case Forward(receiver) => SourcesApart(receiver, v, w);
    case Wrap(inner) => SourcesApart(inner, v, w);
    case Block(tail) => SourcesApart(tail.value, v, w);
    case If(thn, els) =>
      if v in Sources(thn) && w in Sources(thn) {
        SourcesApart(thn, v, w);
      } else if v in Sources(thn) {
        SourceLocals(thn, v);
        SourceLocals(els.value, w);
      } else if w in Sources(thn) {
        SourceLocals(thn, w);
        SourceLocals(els.value, v);
      } else {
        SourcesApart(els.value, v, w);
      }
    case Match(arms) => SomeSourcesApart(arms, v, w);
    case _ =>
  }

  lemma {:induction false} SomeSourcesApart(es: seq<Expr>, v: Expr, w: Expr)
    requires AllSpread(es) && v in AllSources(es) && w in AllSources(es) && v != w
    ensures Locals(v) !! Locals(w)
    decreases es, 0
  {
    var first, rest := es[0], es[1..];
    if v in Sources(first) && w in Sources(first) {
      SourcesApart(first, v, w);
    } else if v in Sources(first) {
      SourceLocals(first, v);
      SomeSourceLocals(rest, w);
    } else if w in Sources(first) {
      SourceLocals(first, w);
      SomeSourceLocals(rest, v);
    } else {
      SomeSourcesApart(rest, v, w);
    }
  }

  lemma {:induction false} FieldSourceOf(e: Expr, name: string, v: Expr)
    requires v in FieldSources(e, name)
    ensures Locals(v) <= Locals(e) && (Spread(e) ==> Spread(v))
    decreases e, 0
  {
    match e
    case Forward(receiver) => FieldSourceOf(receiver, name, v);
    case Wrap(inner) => FieldSourceOf(inner, name, v);
    case Block(tail) => FieldSourceOf(tail.value, name, v);
    case If(thn, els) =>
      if v in FieldSources(thn, name) { FieldSourceOf(thn, name, v); } else { FieldSourceOf(els.value, name, v); }
    case Match(arms) => SomeFieldSourceOf(arms, name, v);
    case Literal(_, names, values, base) =>
      if name in names { ValueSourceOf(names, values, name, v); } else { FieldSourceOf(base.value, name, v); }
    case _ =>
  }

  lemma {:induction false} SomeFieldSourceOf(es: seq<Expr>, name: string, v: Expr)
    requires v in AllFieldSources(es, name)
    ensures Locals(v) <= AllLocals(es) && (AllSpread(es) ==> Spread(v))
    decreases es, 0
  {
    if v in FieldSources(es[0], name) { FieldSourceOf(es[0], name, v); } else { SomeFieldSourceOf(es[1..], name, v); }
  }

  lemma {:induction false} ValueSourceOf(names: seq<string>, values: seq<Expr>, name: string, v: Expr)
    requires v in ValueSources(names, values, name)
    ensures Locals(v) <= AllLocals(values) && (AllSpread(values) ==> Spread(v))
    decreases values, 0
  {
    if names[0] == name {
      SourceLocals(values[0], v);
      if AllSpread(values) { SourceIsSpread(values[0], v); }
    } else {
      ValueSourceOf(names[1..], values[1..], name, v);
    }
  }

  /** What reaches a variable is part of the value it is taken from. */
  lemma {:induction false} GetsFromTheValue(p: Pat, v: Expr, x: HirId, w: Expr)
    requires Gets(p, v, x, w)
    ensures Locals(w) <= Locals(v) && (Spread(v) ==> Spread(w))
    decreases p, 1
  {
    hide Spread, Locals, GetsField, GetsMiddle;
    if w == v {
    } else if p.Binding? {
      GetsFromTheValue(p.sub.value, v, x, w);
    } else if p.Indirect? {
      GetsFromTheValue(p.inner, v, x, w);
    } else if p.Or? {
      GetsFromSome(p.alternatives, v, x, w);
    } else if p.Struct? {
      GetsFromTheFields(p.names, p.fields, v, x, w);
    } else {
      GetsFromTheParts(p, v, x, w);
    }
  }

  lemma {:induction false} GetsFromSome(ps: seq<Pat>, v: Expr, x: HirId, w: Expr)
    requires exists i :: 0 <= i < |ps| && Gets(ps[i], v, x, w)
    ensures Locals(w) <= Locals(v) && (Spread(v) ==> Spread(w))
    decreases ps, 0
  {
    hide Gets, Spread, Locals;
    var i :| 0 <= i < |ps| && Gets(ps[i], v, x, w);
    GetsFromTheValue(ps[i], v, x, w);
  }

  lemma {:induction false} GetsFromTheFields(names: seq<string>, fields: seq<Pat>, v: Expr, x: HirId, w: Expr)
    requires exists i, u :: 0 <= i < |fields| && i < |names| && u in FieldSources(v, names[i]) && Gets(fields[i], u, x, w)
    ensures Locals(w) <= Locals(v) && (Spread(v) ==> Spread(w))
    decreases fields, 0
  {
    hide Gets, Spread, Locals, FieldSources;
    var i, u :| 0 <= i < |fields| && i < |names| && u in FieldSources(v, names[i]) && Gets(fields[i], u, x, w);
    GetsFromTheValue(fields[i], u, x, w);
    FieldSourceOf(v, names[i], u);
  }

  lemma {:induction false} GetsFromTheParts(p: Pat, v: Expr, x: HirId, w: Expr)
    requires TakesApart(p, v) && (GetsField(p, Parts(v), x, w) || GetsMiddle(p, Parts(v), x, w))
    ensures Locals(w) <= Locals(v) && (Spread(v) ==> Spread(w))
    decreases p, 0
  {
    var es := Parts(v);
    PartLocals(v);
    assert Spread(v) ==> AllSpread(es);
    hide Gets, Spread, Locals, AllLocals, AllSpread, Sources, FieldAt, Place, InMiddle, Vars;
    if GetsField(p, es, x, w) {
      var i :| 0 <= i < Arity(p) && Place(p, |es|, i) < |es| && Receives(FieldAt(p, i), es[Place(p, |es|, i)], x, w);
      var j := Place(p, |es|, i);
      ReceivesFromTheValue(FieldAt(p, i), es[j], x, w);
      LocalsOfOne(es, j);
      if AllSpread(es) { SpreadAt(es, j); }
    } else {
      var k :| 0 <= k < |es| && InMiddle(p, |es|, k) && w in Sources(es[k]);
      SourceLocals(es[k], w);
      LocalsOfOne(es, k);
      if AllSpread(es) {
        SpreadAt(es, k);
        SourceIsSpread(es[k], w);
      }
    }
  }

  lemma {:induction false} ReceivesFromTheValue(p: Pat, e: Expr, x: HirId, w: Expr)
    requires Receives(p, e, x, w)
    ensures Locals(w) <= Locals(e) && x in Vars(p) && (Spread(e) ==> Spread(w))
    decreases p, 2
  {
    hide Gets, Sources, Locals, Spread, Vars;
    var v :| v in Sources(e) && Gets(p, v, x, w);
    GetsFromTheValue(p, v, x, w);
    GetsIntoVars(p, v, x, w);
    SourceLocals(e, v);
    if Spread(e) { SourceIsSpread(e, v); }
  }

  lemma {:induction false} GoesByTheValue(p: Pat, e: Expr, x: HirId, w: Expr)
    requires GoesBy(p, e, x, w) && Spread(e)
    ensures Spread(w)
    decreases p, 1
  {
    if x in Vars(p) && w in Sources(e) {
      SourceIsSpread(e, w);
    } else if TakesApart(p, e) {
      var es := Parts(e);
      if GoesByField(p, es, x, w) {
        FieldGoesByTheValue(p, es, x, w);
      } else {
        var k :| 0 <= k < |es| && LastOfMiddle(p, |es|, k) && w in Sources(es[k]);
        SpreadAt(es, k);
        SourceIsSpread(es[k], w);
      }
    } else if p.Binding? {
      GoesByTheValue(p.sub.value, e, x, w);
    } else {
      GoesByTheValue(p.inner, e, x, w);
    }
  }

  lemma {:induction false} FieldGoesByTheValue(p: Pat, es: seq<Expr>, x: HirId, w: Expr)
    requires SideBySide(p) && GoesByField(p, es, x, w) && AllSpread(es)
    ensures Spread(w)
    decreases p, 0
  {
    hide GoesBy, Spread, AllSpread, FieldAt, Paired;
    var i :| 0 <= i < Arity(p) && Paired(p, |es|, i) < |es| && GoesBy(FieldAt(p, i), es[Paired(p, |es|, i)], x, w);
    SpreadAt(es, Paired(p, |es|, i));
    GoesByTheValue(FieldAt(p, i), es[Paired(p, |es|, i)], x, w);
  }

  // ----- a pattern that is not met -----

  /** An opaque leaf of a spread initialiser is a local, and stands in one part only. */
  lemma LeafIsInOnePart(es: seq<Expr>, i: nat, j: nat, w: Expr)
    requires AllSpread(es) && i < |es| && j < |es| && i != j
    requires Spread(w) && Opaque(w) && Locals(w) <= Locals(es[i])
    ensures !(Locals(w) <= Locals(es[j]))
  {
    hide AllSpread;
    assert w.res.id in Locals(w);
    if i < j { SpreadApart(es, i, j); } else { SpreadApart(es, j, i); }
  }

  lemma FieldReceives(p: Pat, es: seq<Expr>, i: nat, x: HirId, w: Expr)
    requires SideBySide(p) && WellFormed(p) && i < Arity(p) && x in Vars(FieldAt(p, i))
    ensures GetsField(p, es, x, w) <==>
      Place(p, |es|, i) < |es| && Receives(FieldAt(p, i), es[Place(p, |es|, i)], x, w)
    ensures !GetsMiddle(p, es, x, w)
  {
    hide Receives, WellFormed, FieldAt, Place, Vars, GetsMiddle;
    if GetsField(p, es, x, w) { var j := FieldOfReceives(p, es, i, x, w); }
    if p.Slice? && p.rest.Some? { MiddleApart(p, i); }
    NotByMiddle(p, es, x, w);
  }

  lemma FieldOfReceives(p: Pat, es: seq<Expr>, i: nat, x: HirId, w: Expr) returns (j: nat)
    requires SideBySide(p) && WellFormed(p) && i < Arity(p) && x in Vars(FieldAt(p, i)) && GetsField(p, es, x, w)
    ensures i == j && Place(p, |es|, j) < |es| && Receives(FieldAt(p, j), es[Place(p, |es|, j)], x, w)
  {
    hide Receives, WellFormed, FieldAt, Place, Vars, Locals, SideBySide;
    j :| 0 <= j < Arity(p) && Place(p, |es|, j) < |es| && Receives(FieldAt(p, j), es[Place(p, |es|, j)], x, w);
    ReceivesFromTheValue(FieldAt(p, j), es[Place(p, |es|, j)], x, w);
    OneField(p, i, j, x);
  }

  lemma NotByMiddle(p: Pat, es: seq<Expr>, x: HirId, w: Expr)
    requires p.Slice? && p.rest.Some? ==> x !in Vars(p.rest.value)
    ensures !GetsMiddle(p, es, x, w)
  {}

  /** What the lint goes by and what is received, told field by field. */
  lemma FieldTells(p: Pat, e: Expr, i: nat, x: HirId, w: Expr)
    requires TakesApart(p, e) && WellFormed(p) && i < Arity(p) && x in Vars(FieldAt(p, i)) && Opaque(w)
    ensures
      var es := Parts(e);
      var q, j, k := FieldAt(p, i), Place(p, |es|, i), Paired(p, |es|, i);
      && (GoesBy(p, e, x, w) <==> k < |es| && GoesBy(q, es[k], x, w))
      && (Receives(p, e, x, w) <==> j < |es| && Receives(q, es[j], x, w))
  {
    hide GoesBy, Receives, GoesByField, GoesByLast, GetsField, GetsMiddle, WellFormed, FieldAt, Place, Paired, Vars;
    AppliesToFields(p, e, x, w);
    TakenApartReceives(p, e, x, w);
    FieldDecides(p, Parts(e), i, x, w);
    FieldReceives(p, Parts(e), i, x, w);
  }

  ghost predicate Differs(p: Pat, e: Expr, x: HirId, w: Expr) {
    Opaque(w) && Spread(w) && Locals(w) <= Locals(e) && x in Vars(p) && (GoesBy(p, e, x, w) != Receives(p, e, x, w))
  }

  lemma {:induction false} FieldMisses(p: Pat, e: Expr, i: nat) returns (x: HirId, w: Expr)
    requires TakesApart(p, e) && WellFormed(p) && Spread(e) && i < Arity(p) && !FieldMet(p, Parts(e), i)
    ensures Differs(p, e, x, w)
    decreases p, 0
  {
    var es := Parts(e);
    var q, j, k := FieldAt(p, i), Place(p, |es|, i), Paired(p, |es|, i);
    FieldIsWellFormed(p, i);
    PartLocals(e);
    assert AllSpread(es);
    hide GoesBy, Receives, Gets, Spread, AllSpread, Locals, AllLocals, WellFormed, Met, FieldAt, Place, Paired, Vars, Parts;
    if j == k {
      SpreadAt(es, j);
      x, w := Misses(q, es[j]);
      LocalsOfOne(es, j);
    } else if j < |es| && Reaches(q, es[j]) {
      x, w := FieldReaches(p, es, i, j);
      FieldNotFollowed(p, es, i, x, w);
    } else {
      x, w := FieldFollows(p, es, i, k);
      FieldNotReached(p, es, i, x, w);
    }
    FieldVars(p, i);
    FieldTells(p, e, i, x, w);
  }

  lemma FieldIsWellFormed(p: Pat, i: nat)
    requires SideBySide(p) && WellFormed(p) && i < Arity(p)
    ensures WellFormed(FieldAt(p, i))
  {}

  lemma FieldReaches(p: Pat, es: seq<Expr>, i: nat, j: nat) returns (x: HirId, w: Expr)
    requires SideBySide(p) && i < Arity(p) && j < |es| && AllSpread(es) && Reaches(FieldAt(p, i), es[j])
    ensures Opaque(w) && Spread(w) && Locals(w) <= Locals(es[j]) && Locals(w) <= AllLocals(es)
    ensures x in Vars(FieldAt(p, i)) && Receives(FieldAt(p, i), es[j], x, w)
  {
    hide Receives, Spread, AllSpread, Locals, AllLocals, FieldAt, Vars;
    x, w :| Opaque(w) && Receives(FieldAt(p, i), es[j], x, w);
    SpreadAt(es, j);
    LocalsOfOne(es, j);
    ReceivesFromTheValue(FieldAt(p, i), es[j], x, w);
  }

  lemma FieldNotFollowed(p: Pat, es: seq<Expr>, i: nat, x: HirId, w: Expr)
    requires SideBySide(p) && i < Arity(p) && AllSpread(es) && Opaque(w) && Spread(w)
    requires Place(p, |es|, i) < |es| && Locals(w) <= Locals(es[Place(p, |es|, i)])
    requires Place(p, |es|, i) != Paired(p, |es|, i)
    ensures !(Paired(p, |es|, i) < |es| && GoesBy(FieldAt(p, i), es[Paired(p, |es|, i)], x, w))
  {
    hide GoesBy, Spread, AllSpread, Locals, FieldAt, Place, Paired, Vars;
    var j, k := Place(p, |es|, i), Paired(p, |es|, i);
    if k < |es| && GoesBy(FieldAt(p, i), es[k], x, w) {
      GoesByLocals(FieldAt(p, i), es[k], x, w);
      LeafIsInOnePart(es, j, k, w);
    }
  }

  lemma FieldFollows(p: Pat, es: seq<Expr>, i: nat, k: nat) returns (x: HirId, w: Expr)
    requires SideBySide(p) && i < Arity(p) && k < |es| && AllSpread(es) && Follows(FieldAt(p, i), es[k])
    ensures Opaque(w) && Spread(w) && Locals(w) <= Locals(es[k]) && Locals(w) <= AllLocals(es)
    ensures x in Vars(FieldAt(p, i)) && GoesBy(FieldAt(p, i), es[k], x, w)
  {
    hide GoesBy, Spread, AllSpread, Locals, AllLocals, FieldAt, Vars;
    x, w :| Opaque(w) && GoesBy(FieldAt(p, i), es[k], x, w);
    SpreadAt(es, k);
    LocalsOfOne(es, k);
    GoesByLocals(FieldAt(p, i), es[k], x, w);
    GoesByTheValue(FieldAt(p, i), es[k], x, w);
  }

  lemma FieldNotReached(p: Pat, es: seq<Expr>, i: nat, x: HirId, w: Expr)
    requires SideBySide(p) && i < Arity(p) && AllSpread(es) && Opaque(w) && Spread(w)
    requires Paired(p, |es|, i) < |es| && Locals(w) <= Locals(es[Paired(p, |es|, i)])
    requires Place(p, |es|, i) != Paired(p, |es|, i)
    ensures !(Place(p, |es|, i) < |es| && Receives(FieldAt(p, i), es[Place(p, |es|, i)], x, w))
  {
    hide Receives, Spread, AllSpread, Locals, FieldAt, Place, Paired, Vars;
    var j, k := Place(p, |es|, i), Paired(p, |es|, i);
    if j < |es| && Receives(FieldAt(p, i), es[j], x, w) {
      ReceivesFromTheValue(FieldAt(p, i), es[j], x, w);
      LeafIsInOnePart(es, k, j, w);
    }
  }

  lemma MiddleMisses(p: Pat, e: Expr) returns (x: HirId, w: Expr)
    requires p.Slice? && e.Array? && p.rest.Some? && Vars(p.rest.value) != {} && WellFormed(p) && Spread(e)
    requires !MiddleMet(p, e.elements)
    ensures Differs(p, e, x, w)
  {
    var es := e.elements;
    assert AllSpread(es) && Locals(e) == AllLocals(es);
    hide GoesBy, Receives, GoesByField, GetsField, Spread, AllSpread, Locals, AllLocals, WellFormed, InMiddle, LastOfMiddle;
    x :| x in Vars(p.rest.value);
    var k: int;
    k, w :| 0 <= k < |es| && InMiddle(p, |es|, k) && !LastOfMiddle(p, |es|, k) && w in Sources(es[k]) && Opaque(w);
    SpreadAt(es, k);
    SourceIsSpread(es[k], w);
    SourceLocals(es[k], w);
    LocalsOfOne(es, k);
    AppliesToFields(p, e, x, w);
    TakenApartReceives(p, e, x, w);
    MiddleDecides(p, es, x, w);
    assert GetsMiddle(p, es, x, w);
    if GoesByLast(p, es, x, w) {
      var l :| 0 <= l < |es| && LastOfMiddle(p, |es|, l) && w in Sources(es[l]);
      SourceLocals(es[l], w);
      LeafIsInOnePart(es, k, l, w);
    }
  }

  /** Where the pattern is not met, the lint and the values part over some leaf. */
  lemma {:induction false} Misses(p: Pat, e: Expr) returns (x: HirId, w: Expr)
    requires WellFormed(p) && Spread(e) && !Met(p, e)
    ensures Differs(p, e, x, w)
    decreases p, 1
  {
    if TakesApart(p, e) {
      if i: nat :| i < Arity(p) && !FieldMet(p, Parts(e), i) {
        x, w := FieldMisses(p, e, i);
      } else {
        x, w := MiddleMisses(p, e);
      }
    } else if p.Binding? {
      x, w := Misses(p.sub.value, e);
      BinderReceives(p, e, x, w);
      SubGoesBy(p, e, x);
    } else if p.Indirect? {
      x, w := Misses(p.inner, e);
      InnerReceives(p, e, x, w);
      InnerGoesBy(p, e, x);
    } else {
      x, w := OverlookedMisses(p, e);
    }
  }

  lemma OverlookedMisses(p: Pat, e: Expr) returns (x: HirId, w: Expr)
    requires !TakesApart(p, e) && !p.Binding? && !p.Indirect? && Spread(e) && Overlooks(p, e)
    ensures Differs(p, e, x, w)
  {
    hide GoesBy, Gets, Spread, Locals, Sources, Vars, Receives, TakesApart;
    var v;
    v, x, w :| v in Sources(e) && !Opaque(v) && Gets(p, v, x, w) && Opaque(w);
    ReceivesOneOf(p, e, v, x, w);
    ReceivesFromTheValue(p, e, x, w);
    if GoesBy(p, e, x, w) { PartIsNoSource(p, e, v, x, w); }
  }

  lemma PartIsNoSource(p: Pat, e: Expr, v: Expr, x: HirId, w: Expr)
    requires !TakesApart(p, e) && !p.Binding? && !p.Indirect? && Spread(e)
    requires v in Sources(e) && !Opaque(v) && Gets(p, v, x, w) && Opaque(w) && Spread(w)
    ensures !GoesBy(p, e, x, w)
  {
    hide GoesBy, Gets, Spread, Locals, Sources, Vars, TakesApart;
    WholeGoesBySources(p, e, x, w);
    if w in Sources(e) {
      GetsFromTheValue(p, v, x, w);
      SourcesApart(e, v, w);
      LeafReadsALocal(w);
    }
  }

  lemma ReceivesOneOf(p: Pat, e: Expr, v: Expr, x: HirId, w: Expr)
    requires v in Sources(e) && Gets(p, v, x, w)
    ensures Receives(p, e, x, w)
  {
    hide Gets, Sources;
  }

  lemma LeafReadsALocal(w: Expr)
    requires Spread(w) && Opaque(w)
    ensures Locals(w) != {}
  {
    assert w.res.id in Locals(w);
  }

  /** Of a spread initialiser, one local in the right place is enough to show the difference. */
  lemma MissedIsWrong(p: Pat, e: Expr)
    requires WellFormed(p) && Spread(e) && Locals(e) !! Vars(p) && !Met(p, e)
    ensures !Right(p, e)
  {
    hide GoesBy, Receives, Spread, Met, WellFormed, BindFrom, Locals;
    var x, w := Misses(p, e);
    LocalOfLeaf(w);
    var s := {w.res.id};
    BindingGoesBy(s, p, e, x);
    forall v | Tainted(s, v) && (GoesBy(p, e, x, v) || Receives(p, e, x, v)) ensures v == w {
      if GoesBy(p, e, x, v) { GoesByTheValue(p, e, x, v); } else { ReceivesFromTheValue(p, e, x, v); }
      LocalOfLeaf(v);
    }
    assert Tracks(s, p, e, x) != Deserves(s, p, e, x);
  }

  lemma LocalOfLeaf(w: Expr)
    requires Spread(w) && Opaque(w)
    ensures w.Path? && w.resolved && w.res.LocalRes? && w.res.id in Locals(w)
  {}

  // ----- shapes -----

  /** An expression with nothing at its leaves. */
  ghost function Blank(e: Expr): Expr {
    match e
    case Forward(receiver) => Forward(Blank(receiver))
    case Wrap(inner) => Wrap(Blank(inner))
    case Block(tail) => Block(if tail.Some? then Some(Blank(tail.value)) else None)
    case If(thn, els) => If(Blank(thn), if els.Some? then Some(Blank(els.value)) else None)
    case Match(arms) => Match(AllBlank(arms))
    case Tup(exprs) => Tup(AllBlank(exprs))
    case Call(callee, args) => Call(callee, AllBlank(args))
    case Array(elements) => Array(AllBlank(elements))
    case Literal(ctor, names, values, base) =>
      Literal(ctor, names, AllBlank(values), if base.Some? then Some(Blank(base.value)) else None)
    case _ => Other
  }

  ghost function AllBlank(es: seq<Expr>): (r: seq<Expr>)
    ensures |r| == |es| && forall i :: 0 <= i < |r| ==> r[i] == Blank(es[i])
  {
    if es == [] then [] else [Blank(es[0])] + AllBlank(es[1..])
  }

  /** The two expressions differ in their leaves alone. */
  ghost predicate SameShape(e: Expr, f: Expr) {
    Blank(e) == Blank(f)
  }

  ghost predicate AllSameShape(a: seq<Expr>, b: seq<Expr>) {
    AllBlank(a) == AllBlank(b)
  }

  lemma ShapesOfRest(a: seq<Expr>, b: seq<Expr>)
    requires AllSameShape(a, b) && a != []
    ensures b != [] && SameShape(a[0], b[0]) && AllSameShape(a[1..], b[1..])
  {
    hide Blank;
    assert AllBlank(a)[1..] == AllBlank(a[1..]) && AllBlank(b)[1..] == AllBlank(b[1..]);
  }

  lemma ShapesAt(a: seq<Expr>, b: seq<Expr>)
    requires AllSameShape(a, b)
    ensures |a| == |b| && forall i :: 0 <= i < |a| ==> SameShape(a[i], b[i])
  {
    hide Blank;
    forall i | 0 <= i < |a| ensures SameShape(a[i], b[i]) { assert AllBlank(a)[i] == AllBlank(b)[i]; }
  }

  lemma {:induction false} SourceInShape(e: Expr, f: Expr, v: Expr) returns (u: Expr)
    requires SameShape(e, f) && v in Sources(e)
    ensures u in Sources(f) && SameShape(v, u)
    decreases e, 0
  {
    match e
    case Forward(a) => u := SourceInShape(a, f.receiver, v);
    case Wrap(a) => u := SourceInShape(a, f.inner, v);
    case Block(a) => u := SourceInShape(a.value, f.tail.value, v);
    case If(a, c) =>
      if v in Sources(a) { u := SourceInShape(a, f.thn, v); } else { u := SourceInShape(c.value, f.els.value, v); }
    case Match(a) => u := SomeSourceInShape(a, f.arms, v);
    case _ => u := f;
  }

  lemma {:induction false} SomeSourceInShape(a: seq<Expr>, b: seq<Expr>, v: Expr) returns (u: Expr)
    requires AllSameShape(a, b) && v in AllSources(a)
    ensures u in AllSources(b) && SameShape(v, u)
    decreases a, 0
  {
    ShapesOfRest(a, b);
    if v in Sources(a[0]) { u := SourceInShape(a[0], b[0], v); } else { u := SomeSourceInShape(a[1..], b[1..], v); }
  }

  lemma {:induction false} FieldSourceInShape(e: Expr, f: Expr, name: string, v: Expr) returns (u: Expr)
    requires SameShape(e, f) && v in FieldSources(e, name)
    ensures u in FieldSources(f, name) && SameShape(v, u)
    decreases e, 0
  {
    match e
    case Forward(a) => u := FieldSourceInShape(a, f.receiver, name, v);
    case Wrap(a) => u := FieldSourceInShape(a, f.inner, name, v);
    case Block(a) => u := FieldSourceInShape(a.value, f.tail.value, name, v);
    case If(a, c) =>
      if v in FieldSources(a, name) {
        u := FieldSourceInShape(a, f.thn, name, v);
      } else {
        u := FieldSourceInShape(c.value, f.els.value, name, v);
      }
    case Match(a) => u := SomeFieldSourceInShape(a, f.arms, name, v);
    case Literal(_, names, a, c) =>
      if name in names {
        u := ValueSourceInShape(names, a, f.values, name, v);
      } else {
        u := FieldSourceInShape(c.value, f.base.value, name, v);
      }
    case _ => u := f;
  }

  lemma {:induction false} SomeFieldSourceInShape(a: seq<Expr>, b: seq<Expr>, name: string, v: Expr) returns (u: Expr)
    requires AllSameShape(a, b) && v in AllFieldSources(a, name)
    ensures u in AllFieldSources(b, name) && SameShape(v, u)
    decreases a, 0
  {
    ShapesOfRest(a, b);
    if v in FieldSources(a[0], name) {
      u := FieldSourceInShape(a[0], b[0], name, v);
    } else {
      u := SomeFieldSourceInShape(a[1..], b[1..], name, v);
    }
  }

  lemma {:induction false} ValueSourceInShape(names: seq<string>, a: seq<Expr>, b: seq<Expr>, name: string, v: Expr)
    returns (u: Expr)
    requires AllSameShape(a, b) && v in ValueSources(names, a, name)
    ensures u in ValueSources(names, b, name) && SameShape(v, u)
    decreases a, 0
  {
    ShapesOfRest(a, b);
    if names[0] == name {
      u := SourceInShape(a[0], b[0], v);
    } else {
      u := ValueSourceInShape(names[1..], a[1..], b[1..], name, v);
    }
  }

  lemma PartsInShape(p: Pat, v: Expr, u: Expr)
    requires SameShape(v, u) && TakesApart(p, v)
    ensures TakesApart(p, u) && AllSameShape(Parts(v), Parts(u))
  {}

  lemma NotTakenApartInShape(p: Pat, v: Expr, u: Expr)
    requires SameShape(v, u) && !TakesApart(p, v)
    ensures !TakesApart(p, u)
  {
    if TakesApart(p, u) { PartsInShape(p, u, v); }
  }

  lemma {:induction false} GetsInShape(p: Pat, v: Expr, u: Expr, x: HirId, w: Expr) returns (z: Expr)
    requires SameShape(v, u) && Gets(p, v, x, w)
    ensures Gets(p, u, x, z) && SameShape(w, z)
    decreases p, 1
  {
    if p.Binding? {
      if x == p.id && w == v { z := u; } else { z := GetsInShape(p.sub.value, v, u, x, w); }
    } else if p.Indirect? {
      z := GetsInShape(p.inner, v, u, x, w);
    } else if p.Or? {
      var i :| 0 <= i < |p.alternatives| && Gets(p.alternatives[i], v, x, w);
      z := GetsInShape(p.alternatives[i], v, u, x, w);
    } else if p.Struct? {
      z := StructGetsInShape(p, v, u, x, w);
    } else if TakesApart(p, v) {
      PartsInShape(p, v, u);
      z := PartsGetInShape(p, Parts(v), Parts(u), x, w);
    } else {
      NotTakenApartInShape(p, v, u);
      z := u;
    }
  }

  lemma {:induction false} StructGetsInShape(p: Pat, v: Expr, u: Expr, x: HirId, w: Expr) returns (z: Expr)
    requires p.Struct? && SameShape(v, u) && Gets(p, v, x, w)
    ensures Gets(p, u, x, z) && SameShape(w, z)
    decreases p, 0
  {
    if v.Literal? && v.ctor == p.ctor {
      var i, a :| 0 <= i < |p.fields| && i < |p.names| && a in FieldSources(v, p.names[i]) && Gets(p.fields[i], a, x, w);
      var b := FieldSourceInShape(v, u, p.names[i], a);
      z := GetsInShape(p.fields[i], a, b, x, w);
    } else {
      z := u;
    }
  }

  lemma {:induction false} PartsGetInShape(p: Pat, es: seq<Expr>, fs: seq<Expr>, x: HirId, w: Expr) returns (z: Expr)
    requires SideBySide(p) && AllSameShape(es, fs) && (GetsField(p, es, x, w) || GetsMiddle(p, es, x, w))
    ensures (GetsField(p, fs, x, z) || GetsMiddle(p, fs, x, z)) && SameShape(w, z)
    decreases p, 0
  {
    hide Gets, SameShape, Sources, FieldAt, Place, InMiddle;
    ShapesAt(es, fs);
    if GetsField(p, es, x, w) {
      var i :| 0 <= i < Arity(p) && Place(p, |es|, i) < |es| && Receives(FieldAt(p, i), es[Place(p, |es|, i)], x, w);
      var j := Place(p, |es|, i);
      z := ReceivesInShape(FieldAt(p, i), es[j], fs[j], x, w);
    } else {
      var k :| 0 <= k < |es| && InMiddle(p, |es|, k) && w in Sources(es[k]);
      z := SourceInShape(es[k], fs[k], w);
    }
  }

  lemma {:induction false} ReceivesInShape(p: Pat, e: Expr, f: Expr, x: HirId, w: Expr) returns (z: Expr)
    requires SameShape(e, f) && Receives(p, e, x, w)
    ensures Receives(p, f, x, z) && SameShape(w, z)
    decreases p, 2
  {
    hide Gets, SameShape, Sources;
    var v :| v in Sources(e) && Gets(p, v, x, w);
    var u := SourceInShape(e, f, v);
    z := GetsInShape(p, v, u, x, w);
  }

  lemma {:induction false} GoesByInShape(p: Pat, e: Expr, f: Expr, x: HirId, w: Expr) returns (z: Expr)
    requires SameShape(e, f) && GoesBy(p, e, x, w)
    ensures GoesBy(p, f, x, z) && SameShape(w, z)
    decreases p, 1
  {
    if x in Vars(p) && w in Sources(e) {
      z := SourceInShape(e, f, w);
    } else if TakesApart(p, e) {
      PartsInShape(p, e, f);
      z := PartsGoByInShape(p, Parts(e), Parts(f), x, w);
    } else if p.Binding? {
      z := GoesByInShape(p.sub.value, e, f, x, w);
    } else {
      z := GoesByInShape(p.inner, e, f, x, w);
    }
  }

  lemma {:induction false} PartsGoByInShape(p: Pat, es: seq<Expr>, fs: seq<Expr>, x: HirId, w: Expr) returns (z: Expr)
    requires SideBySide(p) && AllSameShape(es, fs) && (GoesByField(p, es, x, w) || GoesByLast(p, es, x, w))
    ensures (GoesByField(p, fs, x, z) || GoesByLast(p, fs, x, z)) && SameShape(w, z)
    decreases p, 0
  {
    hide GoesBy, SameShape, Sources, FieldAt, Paired, LastOfMiddle;
    ShapesAt(es, fs);
    if GoesByField(p, es, x, w) {
      var i :| 0 <= i < Arity(p) && Paired(p, |es|, i) < |es| && GoesBy(FieldAt(p, i), es[Paired(p, |es|, i)], x, w);
      var j := Paired(p, |es|, i);
      z := GoesByInShape(FieldAt(p, i), es[j], fs[j], x, w);
    } else {
      var k :| 0 <= k < |es| && LastOfMiddle(p, |es|, k) && w in Sources(es[k]);
      z := SourceInShape(es[k], fs[k], w);
    }
  }

  lemma OpaqueInShape(w: Expr, z: Expr)
    requires SameShape(w, z)
    ensures Opaque(w) <==> Opaque(z)
  {}

  lemma ReachesInShape(p: Pat, e: Expr, f: Expr)
    requires SameShape(e, f) && Reaches(p, e)
    ensures Reaches(p, f)
  {
    hide Receives, SameShape, Opaque;
    var x, w :| Opaque(w) && Receives(p, e, x, w);
    var z := ReceivesInShape(p, e, f, x, w);
    OpaqueInShape(w, z);
  }

  lemma FollowsInShape(p: Pat, e: Expr, f: Expr)
    requires SameShape(e, f) && Follows(p, e)
    ensures Follows(p, f)
  {
    hide GoesBy, SameShape, Opaque;
    var x, w :| Opaque(w) && GoesBy(p, e, x, w);
    var z := GoesByInShape(p, e, f, x, w);
    OpaqueInShape(w, z);
  }

  lemma OverlooksInShape(p: Pat, e: Expr, f: Expr)
    requires SameShape(e, f) && Overlooks(p, e)
    ensures Overlooks(p, f)
  {
    hide Gets, SameShape, Opaque, Sources;
    var v, x, w :| v in Sources(e) && !Opaque(v) && Gets(p, v, x, w) && Opaque(w);
    var u := SourceInShape(e, f, v);
    var z := GetsInShape(p, v, u, x, w);
    OpaqueInShape(v, u);
    OpaqueInShape(w, z);
  }

  lemma {:induction false} MetInShape(p: Pat, e: Expr, f: Expr)
    requires SameShape(e, f) && Met(p, e)
    ensures Met(p, f)
    decreases p, 1
  {
    if TakesApart(p, e) {
      PartsInShape(p, e, f);
      FieldsMetInShape(p, Parts(e), Parts(f));
    } else {
      NotTakenApartInShape(p, e, f);
      if p.Binding? {
        if p.sub.Some? { MetInShape(p.sub.value, e, f); }
      } else if p.Indirect? {
        MetInShape(p.inner, e, f);
      } else {
        if Overlooks(p, f) { OverlooksInShape(p, f, e); }
      }
    }
  }

  lemma {:induction false} FieldsMetInShape(p: Pat, es: seq<Expr>, fs: seq<Expr>)
    requires SideBySide(p) && AllSameShape(es, fs)
    requires forall i :: 0 <= i < Arity(p) ==> FieldMet(p, es, i)
    ensures forall i :: 0 <= i < Arity(p) ==> FieldMet(p, fs, i)
    ensures p.Slice? && MiddleMet(p, es) ==> MiddleMet(p, fs)
    decreases p, 0
  {
    hide FieldMet, MiddleMet, SameShape, AllSameShape;
    forall i | 0 <= i < Arity(p) ensures FieldMet(p, fs, i) { FieldMetInShape(p, es, fs, i); }
    if p.Slice? && MiddleMet(p, es) { MiddleMetInShape(p, es, fs); }
  }

  lemma {:induction false} FieldMetInShape(p: Pat, es: seq<Expr>, fs: seq<Expr>, i: nat)
    requires SideBySide(p) && AllSameShape(es, fs) && i < Arity(p) && FieldMet(p, es, i)
    ensures FieldMet(p, fs, i)
    decreases p, 0, 0
  {
    hide Met, SameShape, Reaches, Follows, FieldAt, Place, Paired;
    ShapesAt(es, fs);
    ShapesAt(fs, es);
    var q, j, k := FieldAt(p, i), Place(p, |es|, i), Paired(p, |es|, i);
    if j == k {
      if j < |es| { MetInShape(q, es[j], fs[j]); }
    } else {
      if j < |es| && Reaches(q, fs[j]) { ReachesInShape(q, fs[j], es[j]); }
      if k < |es| && Follows(q, fs[k]) { FollowsInShape(q, fs[k], es[k]); }
    }
  }

  lemma MiddleMetInShape(p: Pat, es: seq<Expr>, fs: seq<Expr>)
    requires p.Slice? && AllSameShape(es, fs) && MiddleMet(p, es)
    ensures MiddleMet(p, fs)
  {
    hide SameShape, InMiddle, LastOfMiddle, Opaque, Sources;
    ShapesAt(fs, es);
    forall k, w | 0 <= k < |fs| && InMiddle(p, |fs|, k) && !LastOfMiddle(p, |fs|, k) && w in Sources(fs[k])
      ensures !Opaque(w)
    {
      var u := SourceInShape(fs[k], es[k], w);
      OpaqueInShape(w, u);
    }
  }

  // ----- an initialiser of the same shape with a local at every leaf -----

  lemma {:induction false} Scattered(e: Expr, from: nat) returns (f: Expr, to: nat)
    ensures SameShape(e, f) && Spread(f) && from <= to && forall y :: y in Locals(f) ==> from <= y < to
    decreases e, 0
  {
    match e
    case Forward(a) =>
      var b;
      b, to := Scattered(a, from);
      f := Forward(b);
    case Wrap(a) =>
      var b;
      b, to := Scattered(a, from);
      f := Wrap(b);
    case Block(a) =>
      var b;
      b, to := ScatteredOption(a, from);
      f := Block(b);
    case If(a, c) =>
      var b, mid := Scattered(a, from);
      var d;
      d, to := ScatteredOption(c, mid);
      f := If(b, d);
    case Match(a) =>
      var b;
      b, to := AllScattered(a, from);
      f := Match(b);
    case Tup(a) =>
      var b;
      b, to := AllScattered(a, from);
      f := Tup(b);
    case Call(g, a) =>
      var b;
      b, to := AllScattered(a, from);
      f := Call(g, b);
    case Array(a) =>
      var b;
      b, to := AllScattered(a, from);
      f := Array(b);
    case Literal(g, names, a, c) =>
      var b, mid := AllScattered(a, from);
      var d;
      d, to := ScatteredOption(c, mid);
      f := Literal(g, names, b, d);
    case _ =>
      f, to := Path(true, LocalRes(from)), from + 1;
  }

  lemma {:induction false} ScatteredOption(o: Option<Expr>, from: nat) returns (g: Option<Expr>, to: nat)
    ensures (o.None? <==> g.None?) && (o.Some? ==> SameShape(o.value, g.value)) && from <= to
    ensures g.Some? ==> Spread(g.value) && forall y :: y in Locals(g.value) ==> from <= y < to
    decreases o, 0
  {
    if o.None? {
      g, to := None, from;
    } else {
      var f;
      f, to := Scattered(o.value, from);
      g := Some(f);
    }
  }

  lemma {:induction false} AllScattered(es: seq<Expr>, from: nat) returns (fs: seq<Expr>, to: nat)
    ensures AllSameShape(es, fs) && AllSpread(fs) && from <= to && forall y :: y in AllLocals(fs) ==> from <= y < to
    decreases es, 0
  {
    if es == [] {
      fs, to := [], from;
    } else {
      var f, mid := Scattered(es[0], from);
      var rest;
      rest, to := AllScattered(es[1..], mid);
      fs := [f] + rest;
      assert fs[1..] == rest && AllBlank(fs) == [Blank(f)] + AllBlank(rest);
    }
  }

  lemma {:induction false} Above(s: set<HirId>) returns (n: HirId)
    ensures forall y :: y in s ==> y < n
    decreases |s|
  {
    if s == {} {
      n := 0;
    } else {
      var y :| y in s;
      var m := Above(s - {y});
      n := if m <= y then y + 1 else m;
      forall z | z in s ensures z < n { assert z == y || z in s - {y}; }
    }
  }

  /** An initialiser of the shape of `e` that reads none of the pattern's variables. */
  ghost predicate Instance(p: Pat, e: Expr, f: Expr) {
    SameShape(e, f) && Locals(f) !! Vars(p)
  }

  /** For a pattern and the shape of an initialiser, the lint is right whatever stands at the leaves
      exactly when the pattern meets what it takes apart. */
  lemma RightIffMet(p: Pat, e: Expr)
    requires WellFormed(p)
    ensures (forall f | Instance(p, e, f) :: Right(p, f)) <==> Met(p, e)
  {
    hide Right, Met, SameShape, WellFormed, Vars;
    if Met(p, e) {
      forall f | Instance(p, e, f) ensures Right(p, f) {
        MetInShape(p, e, f);
        MetIsRight(p, f);
      }
    } else {
      var f := UnmetIsWrong(p, e);
    }
  }

  /** Otherwise some initialiser of that shape gives a variable the wrong status. */
  lemma UnmetIsWrong(p: Pat, e: Expr) returns (f: Expr)
    requires WellFormed(p) && !Met(p, e)
    ensures Instance(p, e, f) && !Right(p, f)
  {
    hide Right, Met, SameShape, WellFormed, Spread, Vars;
    var n := Above(Vars(p));
    var to;
    f, to := Scattered(e, n);
    if Met(p, f) { MetInShape(p, f, e); }
    MissedIsWrong(p, f);
  }

  lemma MetIsRight(p: Pat, e: Expr)
    requires WellFormed(p) && Met(p, e) && Locals(e) !! Vars(p)
    ensures Right(p, e)
  {
    hide BindFrom, Deserves, Met, WellFormed, Locals, Vars;
    forall s: set<HirId>, x: HirId | s !! Vars(p) && x in Vars(p)
      ensures x in BindFrom(s, p, e) <==> Deserves(s, p, e, x)
    {
      VariableFollowsItsValue(s, p, e, x);
    }
  }

  // ----- inputs it gets wrong -----

  lemma ReceivedIsDeserved(s: set<HirId>, p: Pat, e: Expr, x: HirId, w: Expr)
    requires Receives(p, e, x, w) && Tainted(s, w)
    ensures Deserves(s, p, e, x)
  {}

  lemma FirstFieldReceives(fields: seq<Pat>, es: seq<Expr>, x: HirId, w: Expr)
    requires fields != [] && es != [] && Receives(fields[0], es[0], x, w)
    ensures Receives(Tuple(fields, None), Tup(es), x, w)
  {
    hide Receives;
    var p := Tuple(fields, None);
    assert Place(p, |es|, 0) == 0 && FieldAt(p, 0) == fields[0];
    TakenApartReceives(p, Tup(es), x, w);
  }

  lemma BinderReceivesIt(x: HirId, w: Expr)
    requires Opaque(w)
    ensures Receives(Binding(x, None), w, x, w)
  {
    BinderReceives(Binding(x, None), w, x, w);
  }

  /** The variable deserves to be tracked, and the lint clears it. */
  ghost predicate Missed(p: Pat, e: Expr, x: HirId) {
    WellFormed(p) && Locals(e) !! Vars(p) && Deserves({}, p, e, x) && x !in BindFrom({}, p, e)
  }

  /** A pattern that stands before something else than its constructor is cleared. */
  lemma ClearedIsMissed(p: Pat, e: Expr, x: HirId, w: Expr)
    requires WellFormed(p) && Locals(e) !! Vars(p) && Receives(p, e, x, w) && Tainted({}, w)
    requires !TakesApart(p, e) && !p.Binding? && !p.Indirect? && !IsErrorString({}, e)
    ensures Missed(p, e, x)
    ensures Missed(Indirect(p), e, x)
  {
    hide Receives, WellFormed, Vars, Locals, IsErrorString;
    ReceivedIsDeserved({}, p, e, x, w);
    InnerReceives(Indirect(p), e, x, w);
    ReceivedIsDeserved({}, Indirect(p), e, x, w);
    hide Deserves;
    assert BindFrom({}, p, e) == {} && BindFrom({}, Indirect(p), e) == {};
    IndirectIsAlike(p);
  }

  lemma IndirectIsAlike(p: Pat)
    ensures (WellFormed(Indirect(p)) <==> WellFormed(p)) && Vars(Indirect(p)) == Vars(p)
  {}

  lemma FirstBinder(x: HirId)
    ensures WellFormed(Tuple([Binding(x, None), Leaf], None)) && Vars(Tuple([Binding(x, None), Leaf], None)) == {x}
  {
    var fields := [Binding(x, None), Leaf];
    assert fields[1..] == [Leaf] && AllVars([Leaf]) == {};
    assert fields[0] == Binding(x, None) && Vars(fields[0]) == {x} && fields[1] == Leaf && Vars(fields[1]) == {};
  }

  lemma LeavesReadNothing(w: Expr)
    requires Locals(w) == {}
    ensures Locals(Tup([w, Other])) == {} && !IsErrorString({}, Tup([w, Other]))
  {
    assert [w, Other][1..] == [Other] && AllLocals([Other]) == {};
  }

  lemma BorrowReceives(p: Pat, e: Expr, x: HirId, w: Expr)
    ensures Receives(p, Wrap(e), x, w) <==> Receives(p, e, x, w)
  {}

  /** `let &(ref x, _) = &(err.to_string(), 0)` leaves `x` untracked. */
  lemma BorrowedTupleIsMissed(x: HirId)
    ensures Missed(Indirect(Tuple([Binding(x, None), Leaf], None)), Wrap(Tup([ToString(true, Other), Other])), x)
  {
    var w, fields := ToString(true, Other), [Binding(x, None), Leaf];
    var p, t := Tuple(fields, None), Tup([w, Other]);
    FirstBinder(x);
    LeavesReadNothing(w);
    BinderReceivesIt(x, w);
    hide Receives, WellFormed, Vars;
    FirstFieldReceives(fields, [w, Other], x, w);
    BorrowReceives(p, t, x, w);
    ClearedIsMissed(p, Wrap(t), x, w);
  }

  lemma FirstBranchReceives(p: Pat, thn: Expr, els: Expr, x: HirId, w: Expr)
    requires Receives(p, thn, x, w)
    ensures Receives(p, If(thn, Some(els)), x, w)
  {
    hide Gets;
  }

  /** `let (x, _) = if c { (err.to_string(), 0) } else { other }` leaves `x` untracked. */
  lemma BranchIsMissed(x: HirId)
    ensures Missed(Tuple([Binding(x, None), Leaf], None), If(Tup([ToString(true, Other), Other]), Some(Other)), x)
  {
    var w, fields := ToString(true, Other), [Binding(x, None), Leaf];
    var p, t := Tuple(fields, None), Tup([w, Other]);
    FirstBinder(x);
    LeavesReadNothing(w);
    BinderReceivesIt(x, w);
    hide Receives, WellFormed, Vars;
    FirstFieldReceives(fields, [w, Other], x, w);
    FirstBranchReceives(p, t, Other, x, w);
    ClearedIsMissed(p, If(t, Some(Other)), x, w);
  }

  /** `let S { text: x } = S { text: err.to_string() }` leaves `x` untracked. */
  lemma StructFieldIsMissed(ctor: Res, text: string, x: HirId)
    ensures Missed(Struct(ctor, [text], [Binding(x, None)]), Literal(ctor, [text], [ToString(true, Other)], None), x)
  {
    var w := ToString(true, Other);
    var p, e := Struct(ctor, [text], [Binding(x, None)]), Literal(ctor, [text], [w], None);
    assert FieldSources(e, text) == [w] && AllLocals([w]) == {};
    assert Gets(p.fields[0], w, x, w) && p.names[0] == text;
    assert Receives(p, e, x, w) by { assert e in Sources(e) && Gets(p, e, x, w); }
    hide Receives, Gets;
    ClearedIsMissed(p, e, x, w);
  }

  // ----- `..` among the fields -----

  /** A tuple pattern, or the pattern of a tuple struct. */
  function TupleLike(ctor: Option<Res>, ps: seq<Pat>, dots: Option<nat>): Pat {
    match ctor case None => Tuple(ps, dots) case Some(c) => TupleStruct(c, ps, dots)
  }

  function Built(ctor: Option<Res>, es: seq<Expr>): Expr {
    if ctor.None? then Tup(es) else Call(ctor, es)
  }

  /** A `..` that stands last, or stands for nothing, leaves the fields aligned with the front. */
  predicate FrontAligned(n: nat, dots: Option<nat>, m: nat) {
    match dots
    case None => n == m
    case Some(d) => d <= n <= m && (d == n || n == m)
  }

  /** How many fields the type checker lets a tuple pattern have against `m` values. */
  predicate Fits(n: nat, dots: Option<nat>, m: nat) {
    match dots
    case None => n == m
    case Some(d) => d <= n <= m
  }

  /** Each field on its own would be followed if it were taken from the front. */
  ghost predicate FieldsFitFront(ps: seq<Pat>, es: seq<Expr>) {
    |ps| <= |es| && forall i :: 0 <= i < |ps| ==> Met(ps[i], es[i])
  }

  function Binders(lo: nat, n: nat): (ps: seq<Pat>)
    ensures |ps| == n && forall i :: 0 <= i < n ==> ps[i] == Binding(lo + i, None)
  {
    seq(n, (i: nat) => Binding(lo + i, None))
  }

  function LocalsFrom(lo: nat, n: nat): (es: seq<Expr>)
    ensures |es| == n && forall i :: 0 <= i < n ==> es[i] == Path(true, LocalRes(lo + i))
  {
    seq(n, (i: nat) => Path(true, LocalRes(lo + i)))
  }

  lemma {:induction false} LocalsAreSpread(lo: nat, n: nat)
    ensures AllSpread(LocalsFrom(lo, n)) && forall y :: y in AllLocals(LocalsFrom(lo, n)) ==> lo <= y < lo + n
    decreases n
  {
    if n == 0 {
    } else {
      LocalsAreSpread(lo + 1, n - 1);
      var es := LocalsFrom(lo, n);
      assert es[1..] == LocalsFrom(lo + 1, n - 1) && Locals(es[0]) == {lo} && Spread(es[0]);
    }
  }

  lemma BindersBindBelow(n: nat)
    ensures forall x :: x in AllVars(Binders(0, n)) ==> x < n
    ensures Apart(Binders(0, n)) && AllWellFormed(Binders(0, n))
  {
    forall x | x in AllVars(Binders(0, n)) ensures x < n { var i := OneHasVar(Binders(0, n), x); }
  }

  /** A `..` in front of a field, standing for something, makes the lint look at the wrong value. */
  lemma MisalignedDotsMislead(ctor: Option<Res>, n: nat, d: nat, m: nat) returns (ps: seq<Pat>, es: seq<Expr>)
    requires d < n < m
    ensures |ps| == n && |es| == m && FieldsFitFront(ps, es)
    ensures WellFormed(TupleLike(ctor, ps, Some(d))) && AllLocals(es) !! AllVars(ps)
    ensures !Right(TupleLike(ctor, ps, Some(d)), Built(ctor, es))
  {
    hide Right, AllSpread, AllLocals, AllVars;
    ps, es := Binders(0, n), LocalsFrom(n, m);
    BindersBindBelow(n);
    LocalsAreSpread(n, m);
    var p, e := TupleLike(ctor, ps, Some(d)), Built(ctor, es);
    var j := m - n + d;
    assert Gets(ps[d], es[j], d, es[j]) && es[j] in Sources(es[j]);
    assert Receives(ps[d], es[j], d, es[j]);
    assert Place(p, m, d) == j && Paired(p, m, d) == d;
    assert TakesApart(p, e) && Parts(e) == es && !FieldMet(p, es, d);
    assert Locals(e) == AllLocals(es) && Vars(p) == AllVars(ps);
    MissedIsWrong(p, e);
  }

  lemma AlignedIsMet(ctor: Option<Res>, ps: seq<Pat>, dots: Option<nat>, es: seq<Expr>)
    requires FrontAligned(|ps|, dots, |es|) && FieldsFitFront(ps, es)
    ensures Met(TupleLike(ctor, ps, dots), Built(ctor, es))
  {
    var p, e := TupleLike(ctor, ps, dots), Built(ctor, es);
    forall i | 0 <= i < Arity(p) ensures FieldMet(p, Parts(e), i) {
      assert Place(p, |es|, i) == Paired(p, |es|, i) == i && FieldAt(p, i) == ps[i];
    }
  }

  /** Taking fields from the front is right for exactly the `..` that are aligned with it, in tuple
      patterns and in patterns of tuple structs. */
  lemma DotsAreFollowedIffAligned(ctor: Option<Res>, n: nat, dots: Option<nat>, m: nat)
    requires Fits(n, dots, m)
    ensures FrontAligned(n, dots, m) <==>
      forall ps, es | |ps| == n && |es| == m && FieldsFitFront(ps, es)
          && WellFormed(TupleLike(ctor, ps, dots)) && AllLocals(es) !! AllVars(ps) ::
        Right(TupleLike(ctor, ps, dots), Built(ctor, es))
  {
    hide Right, Met, WellFormed, FieldsFitFront;
    if FrontAligned(n, dots, m) {
      forall ps, es | |ps| == n && |es| == m && FieldsFitFront(ps, es)
          && WellFormed(TupleLike(ctor, ps, dots)) && AllLocals(es) !! AllVars(ps)
        ensures Right(TupleLike(ctor, ps, dots), Built(ctor, es))
      {
        AlignedIsMet(ctor, ps, dots, es);
        MetIsRight(TupleLike(ctor, ps, dots), Built(ctor, es));
      }
    } else {
      var ps, es := MisalignedDotsMislead(ctor, n, dots.value, m);
    }
  }

  // ----- the middle of a slice -----

  /** The binder of a slice's middle deserves to be tracked exactly when some element of the middle is
      an error string. */
  lemma MiddleDeserves(s: set<HirId>, p: Pat, es: seq<Expr>, x: HirId)
    requires p.Slice? && p.rest.Some? && x in Vars(p.rest.value) && WellFormed(p)
    ensures Deserves(s, p, Array(es), x) <==> exists k :: 0 <= k < |es| && InMiddle(p, |es|, k) && IsErrorString(s, es[k])
  {
    hide InMiddle, WellFormed, Receives, GetsField, IsErrorString, Sources, Vars;
    var e := Array(es);
    forall w ensures Receives(p, e, x, w) <==> GetsMiddle(p, es, x, w) {
      TakenApartReceives(p, e, x, w);
      NotByField(p, es, x, w);
    }
    forall k | 0 <= k < |es| ensures IsErrorString(s, es[k]) <==> exists w :: w in Sources(es[k]) && Tainted(s, w) {
      ErrorStringIffASourceIs(s, es[k]);
    }
  }

  lemma NotByField(p: Pat, es: seq<Expr>, x: HirId, w: Expr)
    requires p.Slice? && p.rest.Some? && WellFormed(p) && x in Vars(p.rest.value)
    ensures !GetsField(p, es, x, w)
  {
    hide Receives, WellFormed, FieldAt, Place, Vars;
    if GetsField(p, es, x, w) {
      var j :| 0 <= j < Arity(p) && Place(p, |es|, j) < |es| && Receives(FieldAt(p, j), es[Place(p, |es|, j)], x, w);
      ReceivesFromTheValue(FieldAt(p, j), es[Place(p, |es|, j)], x, w);
      MiddleApart(p, j);
    }
  }

  /** Of a slice pattern whose fields are followed, the middle is followed too exactly when none but its
      last element can be a string. */
  lemma MiddleIsRightIffOnlyTheLastCanBe(p: Pat, es: seq<Expr>)
    requires p.Slice? && p.rest.Some? && Vars(p.rest.value) != {} && WellFormed(p)
    requires forall i :: 0 <= i < Arity(p) ==> FieldMet(p, es, i)
    ensures (forall f | Instance(p, Array(es), f) :: Right(p, f)) <==>
      forall k, w :: 0 <= k < |es| && InMiddle(p, |es|, k) && !LastOfMiddle(p, |es|, k) && w in Sources(es[k]) ==> !Opaque(w)
  {
    hide Right, FieldMet, Instance, WellFormed;
    RightIffMet(p, Array(es));
    assert TakesApart(p, Array(es)) && Parts(Array(es)) == es;
  }

  /** `let [all @ ..] = [err.to_string(), other]` leaves `all` untracked. */
  lemma FirstOfTheMiddleIsLost(all: HirId)
    ensures Missed(Slice([], Some(Binding(all, Some(Leaf))), []), Array([ToString(true, Other), Other]), all)
  {
    var p, es := Slice([], Some(Binding(all, Some(Leaf))), []), [ToString(true, Other), Other];
    assert es[1..] == [Other] && AllLocals([Other]) == {};
    MiddleDeserves({}, p, es, all);
    assert InMiddle(p, 2, 0) && IsErrorString({}, es[0]);
    hide Deserves, BindZip;
    SliceBinds({}, p, Array(es));
    MiddleGoesBy({}, p, es, all);
    assert FrontLength(p, 2) == 0 && BackStart(p, 2) == 2 && !IsErrorString({}, es[1]);
  }
}
