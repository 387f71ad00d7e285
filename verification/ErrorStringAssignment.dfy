/** Assignments to several places. The compiler turns a destructuring assignment into a `let` of
    fresh locals followed by one assignment for each place; the lint sees those statements. */
module ErrorStringAssignment {
  import opened Wrappers
  import opened Sorting
  import opened ErrorStrings
  import opened ErrorStringValues
  import opened ErrorStringBinding

  function Local(id: HirId): Expr {
    Path(true, LocalRes(id))
  }

  function AllLocalPaths(ids: seq<HirId>): (es: seq<Expr>)
    ensures |es| == |ids|
  {
    if ids == [] then [] else [Local(ids[0])] + AllLocalPaths(ids[1..])
  }

  /** The state after assigning one local to another. */
  function Assign(s: set<HirId>, place: HirId, value: HirId): set<HirId> {
    BindFrom(s, PlacePat(Local(place)), Local(value))
  }

  /** The state after one such assignment for each place, in order. */
  function InOrder(s: set<HirId>, places: seq<HirId>, values: seq<HirId>): set<HirId>
    requires |places| == |values|
    decreases |places|
  {
    if places == [] then s else InOrder(Assign(s, places[0], values[0]), places[1..], values[1..])
  }

  /** Every place has what its value had before any of the assignments, everything else has what it
      had itself. */
  ghost predicate AtOnce(s: set<HirId>, places: seq<HirId>, values: seq<HirId>, after: set<HirId>)
    requires |places| == |values|
  {
    && (forall i :: 0 <= i < |places| ==> (places[i] in after <==> values[i] in s))
    && (forall y :: y !in places ==> (y in after <==> y in s))
  }

  lemma AssignMoves(s: set<HirId>, place: HirId, value: HirId)
    ensures Assign(s, place, value) == if value in s then s + {place} else s - {place}
  {
    BindRest(s, Binding(place, None), Local(value));
  }

  lemma {:induction false} OthersUntouched(s: set<HirId>, places: seq<HirId>, values: seq<HirId>, y: HirId)
    requires |places| == |values| && y !in places
    ensures y in InOrder(s, places, values) <==> y in s
    decreases |places|
  {
    hide Assign;
    if places == [] {
    } else {
      AssignMoves(s, places[0], values[0]);
      OthersUntouched(Assign(s, places[0], values[0]), places[1..], values[1..], y);
    }
  }

  lemma {:induction false} InOrderSplits(s: set<HirId>, places: seq<HirId>, values: seq<HirId>, j: nat)
    requires |places| == |values| && j <= |places|
    ensures InOrder(s, places, values) == InOrder(InOrder(s, places[..j], values[..j]), places[j..], values[j..])
    decreases j
  {
    hide Assign;
    if j == 0 {
      assert places[0..] == places && values[0..] == values;
    } else {
      InOrderSplits(Assign(s, places[0], values[0]), places[1..], values[1..], j - 1);
      assert places[..j][1..] == places[1..][..j - 1] && values[..j][1..] == values[1..][..j - 1];
      assert places[1..][j - 1..] == places[j..] && values[1..][j - 1..] == values[j..];
    }
  }

  /** A place ends as its value stands when its turn comes, and keeps that to the end. */
  lemma PlaceTakesItsTurn(s: set<HirId>, places: seq<HirId>, values: seq<HirId>, j: nat)
    requires |places| == |values| && Distinct(places) && j < |places|
    ensures places[j] in InOrder(s, places, values) <==> values[j] in InOrder(s, places[..j], values[..j])
  {
    var before := InOrder(s, places[..j], values[..j]);
    InOrderSplits(s, places, values, j);
    var ps, vs := places[j..], values[j..];
    AssignMoves(before, ps[0], vs[0]);
    OthersUntouched(Assign(before, ps[0], vs[0]), ps[1..], vs[1..], places[j]);
    hide InOrder, Assign;
  }

  lemma PlaceKeepsIt(s: set<HirId>, places: seq<HirId>, values: seq<HirId>, i: nat, j: nat)
    requires |places| == |values| && Distinct(places) && i < j <= |places|
    ensures places[i] in InOrder(s, places[..j], values[..j]) <==> places[i] in InOrder(s, places, values)
  {
    InOrderSplits(s, places, values, j);
    assert places[i] !in places[j..];
    OthersUntouched(InOrder(s, places[..j], values[..j]), places[j..], values[j..], places[i]);
  }

  /** No value is a place that an earlier assignment has changed. */
  predicate NeverReadsBack(places: seq<HirId>, values: seq<HirId>)
    requires |places| == |values|
  {
    forall i, j :: 0 <= i < j < |places| && values[j] == places[i] ==> values[i] == places[i]
  }

  lemma InOrderIsAtOnce(s: set<HirId>, places: seq<HirId>, values: seq<HirId>)
    requires |places| == |values| && Distinct(places) && NeverReadsBack(places, values)
    ensures AtOnce(s, places, values, InOrder(s, places, values))
  {
    forall j | 0 <= j < |places| ensures places[j] in InOrder(s, places, values) <==> values[j] in s {
      TurnSeesTheOldState(s, places, values, j);
    }
    forall y | y !in places ensures y in InOrder(s, places, values) <==> y in s {
      OthersUntouched(s, places, values, y);
    }
  }

  lemma {:induction false} TurnSeesTheOldState(s: set<HirId>, places: seq<HirId>, values: seq<HirId>, j: nat)
    requires |places| == |values| && Distinct(places) && NeverReadsBack(places, values) && j < |places|
    ensures places[j] in InOrder(s, places, values) <==> values[j] in s
    decreases j
  {
    hide InOrder;
    PlaceTakesItsTurn(s, places, values, j);
    if i: nat :| i < j && places[i] == values[j] {
      PlaceKeepsIt(s, places, values, i, j);
      TurnSeesTheOldState(s, places, values, i);
    } else {
      assert values[j] !in places[..j];
      OthersUntouched(s, places[..j], values[..j], values[j]);
    }
  }

  /** Assigning locals to distinct places in order comes to assigning them at once, in every state,
      exactly when none of them is read after it has been changed. */
  lemma InOrderIffNeverReadsBack(places: seq<HirId>, values: seq<HirId>)
    requires |places| == |values| && Distinct(places)
    ensures (forall s :: AtOnce(s, places, values, InOrder(s, places, values))) <==> NeverReadsBack(places, values)
  {
    hide InOrder;
    if NeverReadsBack(places, values) {
      forall s ensures AtOnce(s, places, values, InOrder(s, places, values)) { InOrderIsAtOnce(s, places, values); }
    } else {
      var i, j :| 0 <= i < j < |places| && values[j] == places[i] && values[i] != places[i];
      var s := {places[i]};
      PlaceTakesItsTurn(s, places, values, j);
      PlaceKeepsIt(s, places, values, i, j);
    }
  }

  // ----- the lint's own tuple of places -----

  lemma {:induction false} ZipIsInOrder(s: set<HirId>, places: seq<HirId>, values: seq<HirId>)
    requires |places| == |values|
    ensures BindZip(s, PlacePats(AllLocalPaths(places)), AllLocalPaths(values)) == InOrder(s, places, values)
    decreases |places|
  {
    hide BindFrom;
    if places == [] {
    } else {
      ZipIsInOrder(Assign(s, places[0], values[0]), places[1..], values[1..]);
      var es := AllLocalPaths(places);
      assert es[1..] == AllLocalPaths(places[1..]);
      assert PlacePats(es)[1..] == PlacePats(es[1..]);
      assert AllLocalPaths(values)[1..] == AllLocalPaths(values[1..]);
    }
  }

  /** The arm of the lint for a tuple of places assigns in order. */
  lemma TupleOfPlacesIsInOrder(s: set<HirId>, places: seq<HirId>, values: seq<HirId>)
    requires |places| == |values|
    ensures BindFrom(s, PlacePat(Tup(AllLocalPaths(places))), Tup(AllLocalPaths(values))) == InOrder(s, places, values)
  {
    ZipIsInOrder(s, places, values);
  }

  // ----- the statements the compiler makes of it -----

  /** The left side of a destructuring assignment. `Elsewhere` is a place that is no local, such as a
      field or an element; `open` says whether a `..` stands between the two ends of a slice. */
  datatype Target =
    | Place(id: HirId)
    | Elsewhere
    | Underscore
    | TupleOf(targets: seq<Target>, dots: Option<nat>)
    | TupleStructOf(ctor: Res, targets: seq<Target>, dots: Option<nat>)
    | SliceOf(before: seq<Target>, open: bool, after: seq<Target>)
    | StructOf(ctor: Res, names: seq<string>, targets: seq<Target>)

  /** The locals that are assigned, the fresh locals they are assigned from, and the next unused one. */
  datatype Moves = Moves(places: seq<HirId>, freshLocals: seq<HirId>, next: HirId)

  function Then(a: Moves, b: Moves): Moves {
    Moves(a.places + b.places, a.freshLocals + b.freshLocals, b.next)
  }

  /** The `let` pattern and the assignments after it, with fresh locals numbered from `next`. */
  function Lower(t: Target, next: HirId): (Pat, Moves)
    decreases t, 0
  {
    match t
    case Place(id) => (Binding(next, None), Moves([id], [next], next + 1))
    case Elsewhere => (Binding(next, None), Moves([], [], next + 1))
    case Underscore => (Leaf, Moves([], [], next))
    case TupleOf(targets, dots) =>
      var (ps, m) := LowerAll(targets, next);
      (Tuple(ps, dots), m)
    case TupleStructOf(ctor, targets, dots) =>
      var (ps, m) := LowerAll(targets, next);
      (TupleStruct(ctor, ps, dots), m)
    case SliceOf(before, open, after) =>
      var (ps, m) := LowerAll(before, next);
      var (qs, n) := LowerAll(after, m.next);
      (Slice(ps, if open then Some(Leaf) else None, qs), Then(m, n))
    case StructOf(ctor, names, targets) =>
      var (ps, m) := LowerAll(targets, next);
      (Struct(ctor, names, ps), m)
  }

  function LowerAll(ts: seq<Target>, next: HirId): (seq<Pat>, Moves)
    decreases ts, 0
  {
    if ts == [] then ([], Moves([], [], next))
    else
      var (p, m) := Lower(ts[0], next);
      var (ps, n) := LowerAll(ts[1..], m.next);
      ([p] + ps, Then(m, n))
  }

  /** The fresh locals are those from `next` on, and each assignment takes one of them. */
  ghost predicate Numbered(m: Moves, next: HirId, vars: set<HirId>) {
    && next <= m.next && |m.places| == |m.freshLocals|
    && (forall y :: y in vars <==> next <= y < m.next)
    && (forall i :: 0 <= i < |m.freshLocals| ==> m.freshLocals[i] in vars)
  }

  lemma ThenNumbered(a: Moves, b: Moves, next: HirId, u: set<HirId>, v: set<HirId>)
    requires Numbered(a, next, u) && Numbered(b, a.next, v)
    ensures Numbered(Then(a, b), next, u + v) && u !! v
  {}

  lemma {:induction false} LoweredIsNumbered(t: Target, next: HirId)
    ensures var (p, m) := Lower(t, next); Numbered(m, next, Vars(p)) && WellFormed(p)
    decreases t, 1
  {
    match t
    case TupleOf(targets, _) => AllLoweredAreNumbered(targets, next);
    case TupleStructOf(_, targets, _) => AllLoweredAreNumbered(targets, next);
    case SliceOf(before, open, after) => SliceIsNumbered(t, next);
    case StructOf(_, _, targets) => AllLoweredAreNumbered(targets, next);
    case _ =>
  }

  lemma {:induction false} SliceIsNumbered(t: Target, next: HirId)
    requires t.SliceOf?
    ensures var (p, m) := Lower(t, next); Numbered(m, next, Vars(p)) && WellFormed(p)
    decreases t, 0
  {
    var (ps, m) := LowerAll(t.before, next);
    var (qs, n) := LowerAll(t.after, m.next);
    AllLoweredAreNumbered(t.before, next);
    AllLoweredAreNumbered(t.after, m.next);
    hide LowerAll, Numbered, Apart, AllWellFormed;
    ThenNumbered(m, n, next, AllVars(ps), AllVars(qs));
    var p := Lower(t, next).0;
    assert Vars(p) == AllVars(ps) + AllVars(qs);
  }

  lemma {:induction false} AllLoweredAreNumbered(ts: seq<Target>, next: HirId)
    ensures var (ps, m) := LowerAll(ts, next); Numbered(m, next, AllVars(ps)) && Apart(ps) && AllWellFormed(ps)
    decreases ts, 0
  {
    if ts == [] {
    } else {
      var (p, m) := Lower(ts[0], next);
      var (ps, n) := LowerAll(ts[1..], m.next);
      LoweredIsNumbered(ts[0], next);
      AllLoweredAreNumbered(ts[1..], m.next);
      ThenNumbered(m, n, next, Vars(p), AllVars(ps));
      hide Numbered;
      assert ([p] + ps)[1..] == ps;
      ApartCons(p, ps);
    }
  }

  lemma ApartCons(p: Pat, ps: seq<Pat>)
    requires WellFormed(p) && Apart(ps) && AllWellFormed(ps) && Vars(p) !! AllVars(ps)
    ensures Apart([p] + ps) && AllWellFormed([p] + ps)
  {
    hide WellFormed, Vars, AllVars;
    var qs := [p] + ps;
    forall i, j | 0 <= i < j < |qs| ensures Vars(qs[i]) !! Vars(qs[j]) {
      VarsOfOne(ps, j - 1);
      if i > 0 { assert qs[i] == ps[i - 1] && qs[j] == ps[j - 1]; }
    }
  }

  /** The state after a destructuring assignment: the value bound to fresh locals, and each place
      assigned from its own. */
  function Destructured(s: set<HirId>, t: Target, e: Expr, next: HirId): set<HirId> {
    var (p, m) := Lower(t, next);
    LoweredIsNumbered(t, next);
    InOrder(BindFrom(s, p, e), m.places, m.freshLocals)
  }

  /** A destructuring assignment to distinct places is simultaneous: each place ends as its own fresh
      local was bound, and no other variable of the program changes. Where the pattern meets what it
      takes apart, the place is tracked exactly when something it may receive was an error string. */
  lemma DestructuringIsSimultaneous(s: set<HirId>, t: Target, e: Expr, next: HirId)
    requires Distinct(Lower(t, next).1.places)
    requires forall y :: y in s || y in Locals(e) || y in Lower(t, next).1.places ==> y < next
    ensures
      var (p, m) := Lower(t, next);
      var after := Destructured(s, t, e, next);
      && |m.places| == |m.freshLocals|
      && (forall i :: 0 <= i < |m.places| ==> (m.places[i] in after <==> m.freshLocals[i] in BindFrom(s, p, e)))
      && (Met(p, e) ==> forall i :: 0 <= i < |m.places| ==> (m.places[i] in after <==> Deserves(s, p, e, m.freshLocals[i])))
      && (forall y: HirId :: y < next && y !in m.places ==> (y in after <==> y in s))
  {
    var (p, m) := Lower(t, next);
    LoweredIsNumbered(t, next);
    hide Lower, InOrder, BindFrom, Deserves, Met, WellFormed, Locals, Vars;
    forall i, j | 0 <= i < |m.places| && 0 <= j < |m.places| ensures m.freshLocals[j] != m.places[i] {
      assert m.freshLocals[j] in Vars(p) && m.places[i] in m.places;
    }
    InOrderIsAtOnce(BindFrom(s, p, e), m.places, m.freshLocals);
    if Met(p, e) { BindingFollowsTheValues(s, p, e); }
    forall y: HirId | y < next ensures y in BindFrom(s, p, e) <==> y in s { BindTouchesOnlyVars(s, p, e, y); }
  }

  /** Swapping two variables moves the error string with the value. */
  lemma SwapMovesTheErrorString(s: set<HirId>, a: HirId, b: HirId, next: HirId)
    requires a != b && a < next && b < next && forall y :: y in s ==> y < next
    ensures
      var after := Destructured(s, TupleOf([Place(a), Place(b)], None), Tup([Local(b), Local(a)]), next);
      (a in after <==> b in s) && (b in after <==> a in s)
  {
    var ps, es := [Binding(next, None), Binding(next + 1, None)], [Local(b), Local(a)];
    LowerPair(a, b, next);
    PairBinds(s, ps[0], ps[1], es[0], es[1]);
    BindRest(s, ps[0], es[0]);
    BindRest(BindFrom(s, ps[0], es[0]), ps[1], es[1]);
    var bound := BindFrom(s, Tuple(ps, None), Tup(es));
    assert (next in bound <==> b in s) && (next + 1 in bound <==> a in s);
    var places, values := [a, b], [next, next + 1];
    InOrderIsAtOnce(bound, places, values);
    assert places[0] == a && places[1] == b && values[0] == next && values[1] == next + 1;
  }

  lemma LowerPair(a: HirId, b: HirId, next: HirId)
    ensures Lower(TupleOf([Place(a), Place(b)], None), next) ==
            (Tuple([Binding(next, None), Binding(next + 1, None)], None), Moves([a, b], [next, next + 1], next + 2))
  {
    var ts := [Place(a), Place(b)];
    var last := Binding(next + 1, None);
    assert ts[1..] == [Place(b)] && [Place(b)][1..] == [];
    assert LowerAll([], next + 2) == ([], Moves([], [], next + 2));
    assert [last] + [] == [last] && [b] + [] == [b] && [next + 1] + [] == [next + 1];
    assert LowerAll([Place(b)], next + 1) == ([last], Moves([b], [next + 1], next + 2));
    assert [Binding(next, None)] + [last] == [Binding(next, None), last];
    assert [a] + [b] == [a, b] && [next] + [next + 1] == [next, next + 1];
    assert Lower(ts[0], next) == (Binding(next, None), Moves([a], [next], next + 1));
    assert LowerAll(ts, next) == ([Binding(next, None), last], Moves([a, b], [next, next + 1], next + 2));
  }

  lemma PairBinds(s: set<HirId>, p: Pat, q: Pat, x: Expr, y: Expr)
    ensures BindFrom(s, Tuple([p, q], None), Tup([x, y])) == BindFrom(BindFrom(s, p, x), q, y)
  {
    var t := BindFrom(s, p, x);
    assert [p, q][1..] == [q] && [x, y][1..] == [y];
    var ps, es := [q], [y];
    assert BindZip(t, ps, es) == BindZip(BindFrom(t, q, y), ps[1..], es[1..]);
    assert BindZip(s, [p, q], [x, y]) == BindZip(t, ps, es);
  }
}
