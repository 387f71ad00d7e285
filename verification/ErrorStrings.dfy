/** Which local variables hold the display string of an error, followed through patterns. */
module ErrorStrings {
  import opened Wrappers

  type HirId = nat

  datatype Res = LocalRes(id: HirId) | DefRes(def: nat)

  /** Expressions as far as the lint looks at them. `ToString` says whether the receiver's type
      implements `Error`; `Forward` is a method that hands the same string on; `Wrap` is a
      borrow or another transparent node; the callee of a call is what its path resolves to, if it
      is a path; the names and values of a struct literal go in step, and `base` is what a `..`
      fills the other fields from. */
  datatype Expr =
    | Path(resolved: bool, res: Res)
    | ToString(ofError: bool, receiver: Expr)
    | Forward(receiver: Expr)
    | Wrap(inner: Expr)
    | Block(tail: Option<Expr>)
    | If(thn: Expr, els: Option<Expr>)
    | Match(arms: seq<Expr>)
    | Tup(exprs: seq<Expr>)
    | Call(callee: Option<Res>, args: seq<Expr>)
    | Array(elements: seq<Expr>)
    | Literal(ctor: Res, names: seq<string>, values: seq<Expr>, base: Option<Expr>)
    | Other

  /** Patterns; `dots` is where a `..` stands among the fields, and a slice's `rest` is the
      pattern of its middle. The names and fields of a struct pattern go in step. `Indirect` is a
      reference, box or deref pattern. */
  datatype Pat =
    | Binding(id: HirId, sub: Option<Pat>)
    | TupleStruct(ctor: Res, fields: seq<Pat>, dots: Option<nat>)
    | Tuple(fields: seq<Pat>, dots: Option<nat>)
    | Slice(before: seq<Pat>, rest: Option<Pat>, after: seq<Pat>)
    | Struct(ctor: Res, names: seq<string>, fields: seq<Pat>)
    | Or(alternatives: seq<Pat>)
    | Indirect(inner: Pat)
    | Leaf

  // ----- error strings -----

  predicate IsErrorString(tracked: set<HirId>, e: Expr) {
    match e
    case Path(resolved, res) => resolved && res.LocalRes? && res.id in tracked
    case ToString(ofError, _) => ofError
    case Forward(receiver) => IsErrorString(tracked, receiver)
    case Wrap(inner) => IsErrorString(tracked, inner)
    case Block(tail) => tail.Some? && IsErrorString(tracked, tail.value)
    case If(thn, els) => IsErrorString(tracked, thn) || (els.Some? && IsErrorString(tracked, els.value))
    case Match(arms) => AnyErrorString(tracked, arms)
    case _ => false
  }

  predicate AnyErrorString(tracked: set<HirId>, es: seq<Expr>) {
    es != [] && (IsErrorString(tracked, es[0]) || AnyErrorString(tracked, es[1..]))
  }

  /** The expressions the value of `e` may be taken from, once forwarding, borrows, blocks and
      branches are looked through. */
  ghost function Sources(e: Expr): seq<Expr> {
    match e
    case Forward(receiver) => Sources(receiver)
    case Wrap(inner) => Sources(inner)
    case Block(tail) => if tail.Some? then Sources(tail.value) else []
    case If(thn, els) => Sources(thn) + if els.Some? then Sources(els.value) else []
    case Match(arms) => AllSources(arms)
    case _ => [e]
  }

  ghost function AllSources(es: seq<Expr>): seq<Expr> {
    if es == [] then [] else Sources(es[0]) + AllSources(es[1..])
  }

  /** A source that is an error string by itself: the display string of an error, or a tracked local. */
  ghost predicate Tainted(tracked: set<HirId>, e: Expr) {
    (e.ToString? && e.ofError) || (e.Path? && e.resolved && e.res.LocalRes? && e.res.id in tracked)
  }

  ghost predicate AnyTainted(tracked: set<HirId>, es: seq<Expr>) {
    exists i :: 0 <= i < |es| && Tainted(tracked, es[i])
  }

  lemma AnyTaintedConcat(tracked: set<HirId>, a: seq<Expr>, b: seq<Expr>)
    ensures AnyTainted(tracked, a + b) <==> AnyTainted(tracked, a) || AnyTainted(tracked, b)
  {
    assert forall i :: 0 <= i < |a| ==> (a + b)[i] == a[i];
    assert forall i :: 0 <= i < |b| ==> (a + b)[|a| + i] == b[i];
  }

  /** An expression is an error string exactly when one of the sources of its value is. */
  lemma {:induction false} ErrorStringIffASourceIs(tracked: set<HirId>, e: Expr)
    ensures IsErrorString(tracked, e) <==> AnyTainted(tracked, Sources(e))
    decreases e, 0
  {
    match e
    case Forward(receiver) => ErrorStringIffASourceIs(tracked, receiver);
    case Wrap(inner) => ErrorStringIffASourceIs(tracked, inner);
    case Block(tail) => if tail.Some? { ErrorStringIffASourceIs(tracked, tail.value); }
    case If(thn, els) =>
      ErrorStringIffASourceIs(tracked, thn);
      if els.Some? {
        ErrorStringIffASourceIs(tracked, els.value);
        AnyTaintedConcat(tracked, Sources(thn), Sources(els.value));
      } else {
        assert Sources(thn) + [] == Sources(thn);
      }
    case Match(arms) => SomeErrorStringIffASourceIs(tracked, arms);
    case _ => assert Sources(e) == [e] && [e][0] == e;
  }

  lemma {:induction false} SomeErrorStringIffASourceIs(tracked: set<HirId>, es: seq<Expr>)
    ensures AnyErrorString(tracked, es) <==> AnyTainted(tracked, AllSources(es))
    decreases es, 0
  {
    if es == [] {
    } else {
      ErrorStringIffASourceIs(tracked, es[0]);
      SomeErrorStringIffASourceIs(tracked, es[1..]);
      AnyTaintedConcat(tracked, Sources(es[0]), AllSources(es[1..]));
    }
  }

  /** The locals an expression reads. */
  ghost function Locals(e: Expr): set<HirId> {
    match e
    case Path(_, res) => if res.LocalRes? then {res.id} else {}
    case ToString(_, receiver) => Locals(receiver)
    case Forward(receiver) => Locals(receiver)
    case Wrap(inner) => Locals(inner)
    case Block(tail) => if tail.Some? then Locals(tail.value) else {}
    case If(thn, els) => Locals(thn) + if els.Some? then Locals(els.value) else {}
    case Match(arms) => AllLocals(arms)
    case Tup(exprs) => AllLocals(exprs)
    case Call(_, args) => AllLocals(args)
    case Array(elements) => AllLocals(elements)
    case Literal(_, _, values, base) => AllLocals(values) + if base.Some? then Locals(base.value) else {}
    case Other => {}
  }

  ghost function AllLocals(es: seq<Expr>): set<HirId> {
    if es == [] then {} else Locals(es[0]) + AllLocals(es[1..])
  }

  /** The variables a pattern binds. */
  function Vars(p: Pat): set<HirId> {
    match p
    case Binding(id, sub) => {id} + if sub.Some? then Vars(sub.value) else {}
    case TupleStruct(_, fields, _) => AllVars(fields)
    case Tuple(fields, _) => AllVars(fields)
    case Slice(before, rest, after) => AllVars(before) + (if rest.Some? then Vars(rest.value) else {}) + AllVars(after)
    case Struct(_, _, fields) => AllVars(fields)
    case Or(alternatives) => AllVars(alternatives)
    case Indirect(inner) => Vars(inner)
    case Leaf => {}
  }

  function AllVars(ps: seq<Pat>): set<HirId> {
    if ps == [] then {} else Vars(ps[0]) + AllVars(ps[1..])
  }

  lemma AllVarsOfOne(p: Pat)
    ensures AllVars([p]) == Vars(p)
  {}

  // ----- what binding a pattern does, in the order the lint does it -----

  function Min(a: nat, b: nat): nat {
    if a < b then a else b
  }

  /** A pattern over the fields of a tuple or of a tuple struct stands before its own constructor. */
  predicate Meets(p: Pat, e: Expr) {
    (p.Tuple? && e.Tup?) || (p.TupleStruct? && e.Call? && e.callee == Some(p.ctor))
  }

  /** The parts that stand side by side in an expression. */
  function Parts(e: Expr): seq<Expr>
    requires e.Tup? || e.Call? || e.Array?
  {
    match e
    case Tup(exprs) => exprs
    case Call(_, args) => args
    case Array(elements) => elements
  }

  function BindFrom(tracked: set<HirId>, p: Pat, e: Expr): set<HirId>
    decreases p, 0, 0
  {
    if IsErrorString(tracked, e) then tracked + Vars(p)
    else if Meets(p, e) then BindZip(tracked, p.fields, Parts(e))
    else if p.Slice? && e.Array? then
      var n := Min(|p.before|, |e.elements|);
      var left := e.elements[n..];
      var m := |left| - Min(|p.after|, |left|);
      var t1 := BindZip(tracked, p.before, e.elements[..n]);
      var t2 := if p.rest.Some? then BindEach(t1, p.rest.value, left[..m]) else t1;
      BindZip(t2, p.after, left[m..])
    else if p.Binding? then
      (if p.sub.Some? then BindFrom(tracked - {p.id}, p.sub.value, e) else tracked - {p.id})
    else if p.Indirect? then BindFrom(tracked, p.inner, e)
    else tracked - Vars(p)
  }

  function BindZip(tracked: set<HirId>, ps: seq<Pat>, es: seq<Expr>): set<HirId>
    decreases ps, 0, 0
  {
    if ps == [] || es == [] then tracked else BindZip(BindFrom(tracked, ps[0], es[0]), ps[1..], es[1..])
  }

  function BindEach(tracked: set<HirId>, p: Pat, es: seq<Expr>): set<HirId>
    decreases p, 1, |es|
  {
    if es == [] then tracked else BindEach(BindFrom(tracked, p, es[0]), p, es[1..])
  }

  // ----- assigning to a place -----

  /** A pattern that is bound and cleared as a whole: the lint takes no or-pattern apart. */
  function Kept(p: Pat): Pat {
    Or([p])
  }

  /** The pattern an assigned place amounts to. A borrowed place is never taken apart. */
  function PlacePat(place: Expr): Pat {
    match place
    case Path(resolved, res) => if resolved && res.LocalRes? then Binding(res.id, None) else Leaf
    case Tup(places) => Tuple(PlacePats(places), None)
    case Wrap(inner) => Kept(PlacePat(inner))
    case _ => Leaf
  }

  function PlacePats(places: seq<Expr>): (ps: seq<Pat>)
    ensures |ps| == |places|
  {
    if places == [] then [] else [PlacePat(places[0])] + PlacePats(places[1..])
  }

  class ErrorStringComparison {
    var errorStrings: set<HirId>

    method BindPattern(p: Pat)
      modifies this
      ensures errorStrings == old(errorStrings) + Vars(p)
      decreases p
    {
      match p
      case Binding(id, sub) =>
        errorStrings := errorStrings + {id};
        if sub.Some? { BindPattern(sub.value); }
      case TupleStruct(_, fields, _) => BindPatterns(fields);
      case Tuple(fields, _) => BindPatterns(fields);
      case Slice(before, rest, after) =>
        BindPatterns(before);
        if rest.Some? { BindPattern(rest.value); }
        BindPatterns(after);
      case Struct(_, _, fields) => BindPatterns(fields);
      case Or(alternatives) => BindPatterns(alternatives);
      case Indirect(inner) => BindPattern(inner);
      case Leaf =>
    }

    method BindPatterns(ps: seq<Pat>)
      modifies this
      ensures errorStrings == old(errorStrings) + AllVars(ps)
      decreases ps
    {
      for i := 0 to |ps|
        invariant errorStrings + AllVars(ps[i..]) == old(errorStrings) + AllVars(ps)
        invariant errorStrings <= old(errorStrings) + AllVars(ps)
      {
        assert ps[i..][1..] == ps[i + 1..];
        BindPattern(ps[i]);
      }
    }

    method ClearPattern(p: Pat)
      modifies this
      ensures errorStrings == old(errorStrings) - Vars(p)
      decreases p
    {
      match p
      case Binding(id, sub) =>
        errorStrings := errorStrings - {id};
        if sub.Some? { ClearPattern(sub.value); }
      case TupleStruct(_, fields, _) => ClearPatterns(fields);
      case Tuple(fields, _) => ClearPatterns(fields);
      case Slice(before, rest, after) =>
        ClearPatterns(before);
        if rest.Some? { ClearPattern(rest.value); }
        ClearPatterns(after);
      case Struct(_, _, fields) => ClearPatterns(fields);
      case Or(alternatives) => ClearPatterns(alternatives);
      case Indirect(inner) => ClearPattern(inner);
      case Leaf =>
    }

    method ClearPatterns(ps: seq<Pat>)
      modifies this
      ensures errorStrings == old(errorStrings) - AllVars(ps)
      decreases ps
    {
      for i := 0 to |ps|
        invariant errorStrings - AllVars(ps[i..]) == old(errorStrings) - AllVars(ps)
        invariant errorStrings <= old(errorStrings)
      {
        assert ps[i..][1..] == ps[i + 1..];
        ClearPattern(ps[i]);
      }
    }

    method BindPatternFromExpr(p: Pat, e: Expr)
      modifies this
      ensures errorStrings == BindFrom(old(errorStrings), p, e)
      decreases p, 0, 0
    {
      if IsErrorString(errorStrings, e) {
        BindPattern(p);
      } else if p.Tuple? && e.Tup? {
        BindFields(p.fields, e.exprs);
      } else if p.TupleStruct? && e.Call? && e.callee == Some(p.ctor) {
        BindFields(p.fields, e.args);
      } else if p.Slice? && e.Array? {
        var n := Min(|p.before|, |e.elements|);
        BindFields(p.before, e.elements[..n]);
        var left := e.elements[n..];
        var m := |left| - Min(|p.after|, |left|);
        if p.rest.Some? {
          BindRest(p.rest.value, left[..m]);
        }
        BindFields(p.after, left[m..]);
      } else if p.Binding? {
        errorStrings := errorStrings - {p.id};
        if p.sub.Some? {
          BindPatternFromExpr(p.sub.value, e);
        }
      } else if p.Indirect? {
        BindPatternFromExpr(p.inner, e);
      } else {
        ClearPattern(p);
      }
    }

    method BindFields(ps: seq<Pat>, es: seq<Expr>)
      modifies this
      ensures errorStrings == BindZip(old(errorStrings), ps, es)
      decreases ps, 0, 0
    {
      for i := 0 to Min(|ps|, |es|)
        invariant BindZip(errorStrings, ps[i..], es[i..]) == BindZip(old(errorStrings), ps, es)
      {
        assert ps[i..][1..] == ps[i + 1..] && es[i..][1..] == es[i + 1..];
        BindPatternFromExpr(ps[i], es[i]);
      }
    }

    method BindRest(p: Pat, es: seq<Expr>)
      modifies this
      ensures errorStrings == BindEach(old(errorStrings), p, es)
      decreases p, 1, |es|
    {
      for i := 0 to |es|
        invariant BindEach(errorStrings, p, es[i..]) == BindEach(old(errorStrings), p, es)
      {
        assert es[i..][1..] == es[i + 1..];
        BindPatternFromExpr(p, es[i]);
      }
    }

    method BindPlace(place: Expr)
      modifies this
      ensures errorStrings == old(errorStrings) + Vars(PlacePat(place))
      decreases place
    {
      match place
      case Path(resolved, res) =>
        if resolved && res.LocalRes? { errorStrings := errorStrings + {res.id}; }
      case Tup(places) =>
        for i := 0 to |places|
          invariant errorStrings + AllVars(PlacePats(places[i..])) == old(errorStrings) + AllVars(PlacePats(places))
          invariant errorStrings <= old(errorStrings) + AllVars(PlacePats(places))
        {
          assert places[i..][1..] == places[i + 1..];
          BindPlace(places[i]);
        }
      case Wrap(inner) =>
        AllVarsOfOne(PlacePat(inner));
        BindPlace(inner);
      case _ =>
    }

    method ClearPlace(place: Expr)
      modifies this
      ensures errorStrings == old(errorStrings) - Vars(PlacePat(place))
      decreases place
    {
      match place
      case Path(resolved, res) =>
        if resolved && res.LocalRes? { errorStrings := errorStrings - {res.id}; }
      case Tup(places) =>
        for i := 0 to |places|
          invariant errorStrings - AllVars(PlacePats(places[i..])) == old(errorStrings) - AllVars(PlacePats(places))
          invariant errorStrings <= old(errorStrings)
        {
          assert places[i..][1..] == places[i + 1..];
          ClearPlace(places[i]);
        }
      case Wrap(inner) =>
        AllVarsOfOne(PlacePat(inner));
        ClearPlace(inner);
      case _ =>
    }

    method BindPlaceFromExpr(place: Expr, e: Expr)
      modifies this
      ensures errorStrings == BindFrom(old(errorStrings), PlacePat(place), e)
      decreases place
    {
      if IsErrorString(errorStrings, e) {
        BindPlace(place);
      } else if place.Tup? && e.Tup? {
        var places, es := place.exprs, e.exprs;
        for i := 0 to Min(|places|, |es|)
          invariant BindZip(errorStrings, PlacePats(places[i..]), es[i..]) == BindZip(old(errorStrings), PlacePats(places), es)
        {
          assert places[i..][1..] == places[i + 1..] && es[i..][1..] == es[i + 1..];
          assert PlacePats(places[i..])[1..] == PlacePats(places[i + 1..]);
          BindPlaceFromExpr(places[i], es[i]);
        }
      } else {
        ClearPlace(place);
      }
    }
  }
}
