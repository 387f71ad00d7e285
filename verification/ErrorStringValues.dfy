/** What the variables of a pattern receive from an initialiser, said without the lint: forwarding,
    borrows, blocks and branches are seen through, and every pattern takes its own constructor apart. */
module ErrorStringValues {
  import opened Wrappers
  import opened ErrorStrings

  /** An expression the lint sees no part of. */
  predicate Opaque(e: Expr) {
    e.Path? || e.ToString? || e.Other?
  }

  // ----- patterns over parts that stand side by side -----

  predicate SideBySide(p: Pat) {
    p.Tuple? || p.TupleStruct? || p.Slice?
  }

  predicate TakesApart(p: Pat, v: Expr) {
    Meets(p, v) || (p.Slice? && v.Array?)
  }

  function Arity(p: Pat): nat
    requires SideBySide(p)
  {
    if p.Slice? then |p.before| + |p.after| else |p.fields|
  }

  function FieldAt(p: Pat, i: nat): (q: Pat)
    requires SideBySide(p) && i < Arity(p)
    ensures q < p
  {
    if !p.Slice? then p.fields[i]
    else if i < |p.before| then p.before[i]
    else p.after[i - |p.before|]
  }

  /** Which of `m` parts a field receives: the fields before a `..` count from the front, the ones
      after it from the back. */
  function Place(p: Pat, m: nat, i: nat): (j: nat)
    requires SideBySide(p) && i < Arity(p)
  {
    var dots := if p.Slice? then Some(|p.before|) else p.dots;
    if dots.Some? && dots.value <= i && Arity(p) <= m then m - Arity(p) + i else i
  }

  /** The `k`-th of `m` elements is left to the middle of a slice pattern. */
  predicate InMiddle(p: Pat, m: nat, k: nat) {
    p.Slice? && |p.before| <= k && k + |p.after| < m
  }

  // ----- what a variable receives -----

  /** The expressions the field of a struct value may be taken from. */
  ghost function FieldSources(e: Expr, name: string): seq<Expr> {
    match e
    case Forward(receiver) => FieldSources(receiver, name)
    case Wrap(inner) => FieldSources(inner, name)
    case Block(tail) => if tail.Some? then FieldSources(tail.value, name) else []
    case If(thn, els) => FieldSources(thn, name) + if els.Some? then FieldSources(els.value, name) else []
    case Match(arms) => AllFieldSources(arms, name)
    case Literal(_, names, values, base) =>
      if name in names then ValueSources(names, values, name)
      else if base.Some? then FieldSources(base.value, name)
      else []
    case _ => [e]
  }

  ghost function AllFieldSources(es: seq<Expr>, name: string): seq<Expr> {
    if es == [] then [] else FieldSources(es[0], name) + AllFieldSources(es[1..], name)
  }

  ghost function ValueSources(names: seq<string>, values: seq<Expr>, name: string): seq<Expr> {
    if names == [] || values == [] then []
    else if names[0] == name then Sources(values[0])
    else ValueSources(names[1..], values[1..], name)
  }

  /** Out of the value `v`, the pattern gives `x` the value `w`, or a part of `w` that cannot be seen. */
  ghost predicate Gets(p: Pat, v: Expr, x: HirId, w: Expr)
    decreases p, 0
  {
    match p
    case Binding(id, sub) => (x == id && w == v) || (sub.Some? && Gets(sub.value, v, x, w))
    case Indirect(inner) => Gets(inner, v, x, w)
    case Or(alternatives) => exists i :: 0 <= i < |alternatives| && Gets(alternatives[i], v, x, w)
    case Struct(ctor, names, fields) =>
      if v.Literal? && v.ctor == ctor then
        exists i, u :: 0 <= i < |fields| && i < |names| && u in FieldSources(v, names[i]) && Gets(fields[i], u, x, w)
      else x in Vars(p) && w == v
    case _ =>
      if TakesApart(p, v) then GetsField(p, Parts(v), x, w) || GetsMiddle(p, Parts(v), x, w)
      else x in Vars(p) && w == v
  }

  ghost predicate GetsField(p: Pat, es: seq<Expr>, x: HirId, w: Expr)
    requires SideBySide(p)
    decreases p, 0, 0
  {
    exists i :: 0 <= i < Arity(p) && Place(p, |es|, i) < |es| && Receives(FieldAt(p, i), es[Place(p, |es|, i)], x, w)
  }

  /** The binder of a slice's middle receives all of it. */
  ghost predicate GetsMiddle(p: Pat, es: seq<Expr>, x: HirId, w: Expr) {
    && p.Slice? && p.rest.Some? && x in Vars(p.rest.value)
    && exists k :: 0 <= k < |es| && InMiddle(p, |es|, k) && w in Sources(es[k])
  }

  /** When `e` is bound to the pattern, `x` may receive `w`, or a part of `w` that cannot be seen. */
  ghost predicate Receives(p: Pat, e: Expr, x: HirId, w: Expr)
    decreases p, 1
  {
    exists v :: v in Sources(e) && Gets(p, v, x, w)
  }

  /** Something `x` may receive is an error string. */
  ghost predicate Deserves(tracked: set<HirId>, p: Pat, e: Expr, x: HirId) {
    exists w :: Receives(p, e, x, w) && Tainted(tracked, w)
  }
}
