/** Folding an assertion's condition down to the literals behind it. */
module FixedLiterals {
  import opened Wrappers
  import opened Sorting

  type ConstId = nat

  /** Text and byte strings are their bytes; a character is its code point. */
  datatype Value =
    | Bool(b: bool)
    | Int(i: int)
    | Float(x: real)
    | Char(c: nat)
    | Str(text: seq<nat>)
    | Binary(bytes: seq<nat>)

  datatype Op = Eq | Ne | Lt | Le | Gt | Ge | Arithmetic

  /** `Core` is a method core defines on `str` or on slices. */
  datatype Method = Core(name: string) | Elsewhere

  /** Expressions as far as the lint looks at them; `written` says the source wrote it by hand,
      outside macros and generated files. `MethodCall` has no arguments. */
  datatype Expr =
    | Lit(written: bool, value: Value)
    | Neg(written: bool, inner: Expr)
    | Not(inner: Expr)
    | Compare(op: Op, left: Expr, right: Expr)
    | MethodCall(written: bool, method_: Method, receiver: Expr)
    | Path(written: bool, constant: Option<ConstId>)
    | Other

  datatype Item = Const(written: bool, rhs: Expr) | NotConst

  type Crate = map<ConstId, Item>

  // ----- what an expression means -----

  function LexOp(op: Op, a: seq<nat>, b: seq<nat>): Option<bool> {
    match op
    case Eq => Some(a == b)
    case Ne => Some(a != b)
    case Lt => Some(LexLess(a, b))
    case Le => Some(LexLeq(a, b))
    case Gt => Some(LexLess(b, a))
    case Ge => Some(LexLeq(b, a))
    case Arithmetic => None
  }

  function IntOp(op: Op, a: int, b: int): Option<bool> {
    match op
    case Eq => Some(a == b)
    case Ne => Some(a != b)
    case Lt => Some(a < b)
    case Le => Some(a <= b)
    case Gt => Some(a > b)
    case Ge => Some(a >= b)
    case Arithmetic => None
  }

  function RealOp(op: Op, a: real, b: real): Option<bool> {
    match op
    case Eq => Some(a == b)
    case Ne => Some(a != b)
    case Lt => Some(a < b)
    case Le => Some(a <= b)
    case Gt => Some(a > b)
    case Ge => Some(a >= b)
    case Arithmetic => None
  }

  function Rank(b: bool): int {
    if b then 1 else 0
  }

  function Apply(op: Op, l: Value, r: Value): Option<bool> {
    match (l, r)
    case (Bool(a), Bool(b)) => IntOp(op, Rank(a), Rank(b))
    case (Int(a), Int(b)) => IntOp(op, a, b)
    case (Float(a), Float(b)) => RealOp(op, a, b)
    case (Char(a), Char(b)) => IntOp(op, a, b)
    case (Str(a), Str(b)) => LexOp(op, a, b)
    case (Binary(a), Binary(b)) => LexOp(op, a, b)
    case _ => None
  }

  function Negated(v: Value): Option<Value> {
    match v
    case Int(i) => Some(Int(-i))
    case Float(x) => Some(Float(-x))
    case _ => None
  }

  /** What a method of core means on a string or a slice, as far as the lint knows it. */
  function Measured(m: Method, v: Value): Option<Value> {
    if !m.Core? || !(v.Str? || v.Binary?) then None
    else
      var bytes := if v.Str? then v.text else v.bytes;
      if m.name == "len" then Some(Int(|bytes|))
      else if m.name == "is_empty" then Some(Bool(bytes == []))
      else None
  }

  /** The value of an expression, following no more than `fuel` constants. */
  function Meaning(crate: Crate, e: Expr, fuel: nat): Option<Value>
    decreases fuel, e
  {
    match e
    case Lit(_, value) => Some(value)
    case Neg(_, inner) =>
      var v := Meaning(crate, inner, fuel);
      if v.None? then None else Negated(v.value)
    case Not(inner) =>
      var v := Meaning(crate, inner, fuel);
      if v.Some? && v.value.Bool? then Some(Bool(!v.value.b)) else None
    case Compare(op, left, right) =>
      var l, r := Meaning(crate, left, fuel), Meaning(crate, right, fuel);
      if l.None? || r.None? then None
      else
        var b := Apply(op, l.value, r.value);
        if b.None? then None else Some(Bool(b.value))
    case MethodCall(_, m, receiver) =>
      var v := Meaning(crate, receiver, fuel);
      if v.None? then None else Measured(m, v.value)
    case Path(_, constant) =>
      if constant.Some? && constant.value in crate && crate[constant.value].Const? && fuel > 0
      then Meaning(crate, crate[constant.value].rhs, fuel - 1)
      else None
    case Other => None
  }

  ghost predicate Evaluates(crate: Crate, e: Expr, v: Value) {
    exists fuel: nat :: Meaning(crate, e, fuel) == Some(v)
  }

  lemma {:induction false} MoreFuelSameMeaning(crate: Crate, e: Expr, fuel: nat, more: nat)
    requires fuel <= more && Meaning(crate, e, fuel).Some?
    ensures Meaning(crate, e, more) == Meaning(crate, e, fuel)
    decreases fuel, e
  {
    match e
    case Lit(_, _) =>
    case Neg(_, inner) => MoreFuelSameMeaning(crate, inner, fuel, more);
    case Not(inner) => MoreFuelSameMeaning(crate, inner, fuel, more);
    case Compare(_, left, right) =>
      MoreFuelSameMeaning(crate, left, fuel, more);
      MoreFuelSameMeaning(crate, right, fuel, more);
    case MethodCall(_, _, receiver) => MoreFuelSameMeaning(crate, receiver, fuel, more);
    case Path(_, constant) => MoreFuelSameMeaning(crate, crate[constant.value].rhs, fuel - 1, more - 1);
    case Other =>
  }

  lemma EvaluatesOnce(crate: Crate, e: Expr, v: Value, w: Value)
    requires Evaluates(crate, e, v) && Evaluates(crate, e, w)
    ensures v == w
  {
    var f: nat :| Meaning(crate, e, f) == Some(v);
    var g: nat :| Meaning(crate, e, g) == Some(w);
    if f <= g { MoreFuelSameMeaning(crate, e, f, g); } else { MoreFuelSameMeaning(crate, e, g, f); }
  }

  // ----- the literal behind an expression -----

  predicate IsLiteral(e: Expr) {
    (e.Lit? && e.written) || (e.Neg? && e.written && e.inner.Lit? && e.inner.written)
  }

  /** The right-hand side an alias stands for. */
  function Alias(crate: Crate, e: Expr): Option<Expr> {
    if e.Path? && e.written && e.constant.Some? && e.constant.value in crate
       && crate[e.constant.value].Const? && crate[e.constant.value].written
    then Some(crate[e.constant.value].rhs) else None
  }

  function SourceLiteral(crate: Crate, e: Expr, visited: set<ConstId>): Option<Expr>
    decreases crate.Keys - visited
  {
    if IsLiteral(e) then Some(e)
    else
      var rhs := Alias(crate, e);
      if rhs.None? || e.constant.value in visited then None
      else SourceLiteral(crate, rhs.value, visited + {e.constant.value})
  }

  method FindSourceLiteral(crate: Crate, e: Expr, visited: set<ConstId>) returns (r: Option<Expr>, seen: set<ConstId>)
    ensures r == SourceLiteral(crate, e, visited)
    ensures visited <= seen
    decreases crate.Keys - visited
  {
    seen := visited;
    match e
    case Lit(written, _) => return if written then Some(e) else None, seen;
    case Neg(written, inner) => return if written && inner.Lit? && inner.written then Some(e) else None, seen;
    case Path(written, constant) =>
      if !written || constant.None? || constant.value in seen { return None, seen; }
      seen := seen + {constant.value};
      if constant.value !in crate || crate[constant.value].NotConst? || !crate[constant.value].written { return None, seen; }
      r, seen := FindSourceLiteral(crate, crate[constant.value].rhs, seen);
    case _ => return None, seen;
  }

  /** The literal reached after exactly `n` aliases, with nothing remembered on the way. */
  function Chase(crate: Crate, e: Expr, n: nat): Option<Expr>
    decreases n
  {
    if n == 0 then (if IsLiteral(e) then Some(e) else None)
    else
      var rhs := Alias(crate, e);
      if rhs.None? then None else Chase(crate, rhs.value, n - 1)
  }

  /** The expression reached after exactly `n` aliases. */
  function After(crate: Crate, e: Expr, n: nat): Option<Expr>
    decreases n
  {
    if n == 0 then Some(e)
    else
      var rhs := Alias(crate, e);
      if rhs.None? then None else After(crate, rhs.value, n - 1)
  }

  lemma {:induction false} OneLength(crate: Crate, e: Expr, m: nat, n: nat)
    requires Chase(crate, e, m).Some? && Chase(crate, e, n).Some?
    ensures m == n
    decreases m
  {
    if m > 0 && n > 0 { OneLength(crate, Alias(crate, e).value, m - 1, n - 1); }
  }

  lemma {:induction false} FoundIsReached(crate: Crate, e: Expr, visited: set<ConstId>) returns (n: nat)
    requires SourceLiteral(crate, e, visited).Some?
    ensures Chase(crate, e, n) == SourceLiteral(crate, e, visited)
    decreases crate.Keys - visited
  {
    if IsLiteral(e) { return 0; }
    var m := FoundIsReached(crate, Alias(crate, e).value, visited + {e.constant.value});
    n := m + 1;
  }

  /** No visited constant lies on the way to a literal `n` aliases ahead: each of them is
      further than `n` away from it. */
  ghost predicate Behind(crate: Crate, visited: set<ConstId>, n: nat) {
    forall id, m: nat, w :: id in visited && Chase(crate, Path(w, Some(id)), m).Some? ==> m > n
  }

  lemma {:induction false} SameConstantSameLength(crate: Crate, id: ConstId, w: bool, m: nat, n: nat)
    requires Chase(crate, Path(w, Some(id)), m).Some? && Chase(crate, Path(true, Some(id)), n).Some?
    ensures m == n
  {
    OneLength(crate, Path(true, Some(id)), m, n);
  }

  lemma {:induction false} ReachedIsFound(crate: Crate, e: Expr, visited: set<ConstId>, n: nat)
    requires Chase(crate, e, n).Some? && Behind(crate, visited, n)
    ensures SourceLiteral(crate, e, visited) == Chase(crate, e, n)
    decreases n
  {
    if n == 0 {
    } else {
      var id := e.constant.value;
      assert e == Path(true, Some(id));
      assert id !in visited;
      forall other, m: nat, w | other in visited + {id} && Chase(crate, Path(w, Some(other)), m).Some? ensures m > n - 1 {
        if other == id { SameConstantSameLength(crate, id, w, m, n); }
      }
      ReachedIsFound(crate, Alias(crate, e).value, visited + {id}, n - 1);
    }
  }

  /** The search that never visits a constant twice finds exactly the literals that some number
      of aliases leads to. */
  lemma FoundIffReached(crate: Crate, e: Expr, l: Expr)
    ensures SourceLiteral(crate, e, {}) == Some(l) <==> exists n: nat :: Chase(crate, e, n) == Some(l)
  {
    if SourceLiteral(crate, e, {}) == Some(l) {
      var n := FoundIsReached(crate, e, {});
    }
    if n: nat :| Chase(crate, e, n) == Some(l) {
      ReachedIsFound(crate, e, {}, n);
    }
  }

  lemma {:induction false} ChaseFromAfter(crate: Crate, e: Expr, k: nat, n: nat)
    requires After(crate, e, k).Some?
    ensures Chase(crate, e, k + n) == Chase(crate, After(crate, e, k).value, n)
    decreases k
  {
    if k == 0 {
    } else {
      ChaseFromAfter(crate, Alias(crate, e).value, k - 1, n);
    }
  }

  /** An alias that leads back to itself leads to no literal. */
  lemma CyclesHaveNoLiteral(crate: Crate, e: Expr, k: nat)
    requires k > 0 && After(crate, e, k) == Some(e)
    ensures SourceLiteral(crate, e, {}) == None
  {
    if SourceLiteral(crate, e, {}).Some? {
      var n := FoundIsReached(crate, e, {});
      ChaseFromAfter(crate, e, k, n);
      OneLength(crate, e, n, k + n);
    }
  }

  // ----- folding -----

  datatype Ordering = Less | Equal | Greater

  function OrderBytes(a: seq<nat>, b: seq<nat>): Ordering {
    if a == [] && b == [] then Equal
    else if a == [] then Less
    else if b == [] then Greater
    else if a[0] < b[0] then Less
    else if a[0] > b[0] then Greater
    else OrderBytes(a[1..], b[1..])
  }

  function OrderInts(a: int, b: int): Ordering {
    if a < b then Less else if a == b then Equal else Greater
  }

  /** How constants of one type compare; byte strings do not. */
  function PartialCmp(l: Value, r: Value): Option<Ordering> {
    match (l, r)
    case (Str(a), Str(b)) => Some(OrderBytes(a, b))
    case (Char(a), Char(b)) => Some(OrderInts(a, b))
    case (Int(a), Int(b)) => Some(OrderInts(a, b))
    case (Float(a), Float(b)) => Some(if a < b then Less else if a == b then Equal else Greater)
    case (Bool(a), Bool(b)) => Some(OrderInts(Rank(a), Rank(b)))
    case _ => None
  }

  /** Whether an operator accepts an order of its sides. */
  function Judged(op: Op, o: Ordering): bool {
    match op
    case Eq => o == Equal
    case Ne => o != Equal
    case Lt => o == Less
    case Le => o != Greater
    case Gt => o == Greater
    case _ => o != Less
  }

  datatype Fixed = Fixed(value: Value, source: Option<ConstId>)

  /** Evaluates literals. It may give up on any of them. */
  type Evaluator = Expr -> Option<Value>

  function LocalConstant(e: Expr): Option<ConstId> {
    if e.Path? then e.constant else None
  }

  function LiteralValue(crate: Crate, eval: Evaluator, e: Expr): Option<Fixed> {
    var literal := SourceLiteral(crate, e, {});
    if literal.None? then None
    else
      var v := eval(literal.value);
      if v.None? then None else Some(Fixed(v.value, LocalConstant(e)))
  }

  /** The lint's own reading of a method by its name, from the length of what it is called on. */
  function MethodValue(m: Method, v: Value): Option<Value> {
    if !m.Core? || !(v.Str? || v.Binary?) then None
    else
      var len := if v.Str? then |v.text| else |v.bytes|;
      if m.name == "len" then Some(Int(len))
      else if m.name == "is_empty" then Some(Bool(len == 0))
      else None
  }

  function FixedValue(crate: Crate, eval: Evaluator, e: Expr): Option<Fixed> {
    if e.MethodCall? then
      if !e.written || !e.method_.Core? then None
      else
        var receiver := LiteralValue(crate, eval, e.receiver);
        if receiver.None? then None
        else
          var v := MethodValue(e.method_, receiver.value.value);
          if v.None? then None else Some(Fixed(v.value, receiver.value.source))
    else LiteralValue(crate, eval, e)
  }

  function Predicate(crate: Crate, eval: Evaluator, e: Expr): Option<bool> {
    if e.Not? then
      var inner := Predicate(crate, eval, e.inner);
      if inner.None? then None else Some(!inner.value)
    else if e.Compare? && e.op != Arithmetic then
      var l, r := FixedValue(crate, eval, e.left), FixedValue(crate, eval, e.right);
      if l.None? || r.None? then None
      else if l.value.source.Some? && r.value.source.Some? && l.value.source != r.value.source then None
      else
        var ordering := PartialCmp(l.value.value, r.value.value);
        if ordering.None? then None else Some(Judged(e.op, ordering.value))
    else
      var v := FixedValue(crate, eval, e);
      if v.Some? && v.value.value.Bool? then Some(v.value.value.b) else None
  }

  // ----- folding is sound -----

  ghost predicate Faithful(eval: Evaluator) {
    forall e, v, crate: Crate :: IsLiteral(e) && eval(e) == Some(v) ==> Meaning(crate, e, 0) == Some(v)
  }

  lemma {:induction false} ChaseKeepsMeaning(crate: Crate, e: Expr, n: nat)
    requires Chase(crate, e, n).Some?
    ensures IsLiteral(Chase(crate, e, n).value)
    ensures Meaning(crate, e, n) == Meaning(crate, Chase(crate, e, n).value, 0)
    decreases n
  {
    if n == 0 {
    } else {
      ChaseKeepsMeaning(crate, Alias(crate, e).value, n - 1);
    }
  }

  lemma LiteralValueIsSound(crate: Crate, eval: Evaluator, e: Expr)
    requires Faithful(eval) && LiteralValue(crate, eval, e).Some?
    ensures Evaluates(crate, e, LiteralValue(crate, eval, e).value.value)
  {
    hide SourceLiteral, Meaning;
    var n := FoundIsReached(crate, e, {});
    ChaseKeepsMeaning(crate, e, n);
  }

  lemma FixedValueIsSound(crate: Crate, eval: Evaluator, e: Expr)
    requires Faithful(eval) && FixedValue(crate, eval, e).Some?
    ensures Evaluates(crate, e, FixedValue(crate, eval, e).value.value)
  {
    hide LiteralValue;
    if e.MethodCall? {
      LiteralValueIsSound(crate, eval, e.receiver);
      var v := LiteralValue(crate, eval, e.receiver).value.value;
      var f: nat :| Meaning(crate, e.receiver, f) == Some(v);
      assert Meaning(crate, e, f) == Measured(e.method_, v);
    } else {
      LiteralValueIsSound(crate, eval, e);
    }
  }

  lemma {:induction false} BytesOrderLexically(a: seq<nat>, b: seq<nat>)
    ensures OrderBytes(a, b) == Less <==> LexLess(a, b)
    ensures OrderBytes(a, b) == Equal <==> a == b
    ensures OrderBytes(a, b) == Greater <==> LexLess(b, a)
  {
    LexConnected(a, b);
    if a != [] && b != [] && a[0] == b[0] {
      BytesOrderLexically(a[1..], b[1..]);
      assert a == [a[0]] + a[1..] && b == [b[0]] + b[1..];
    }
  }

  /** Judging a comparison by the order of its sides agrees with the operator. */
  lemma OrderDecidesTheOperator(op: Op, l: Value, r: Value)
    requires op != Arithmetic && PartialCmp(l, r).Some?
    ensures Apply(op, l, r) == Some(Judged(op, PartialCmp(l, r).value))
  {
    if l.Str? && r.Str? {
      BytesOrderLexically(l.text, r.text);
      LexConnected(l.text, r.text);
    }
  }

  lemma ComparisonIsSound(crate: Crate, eval: Evaluator, e: Expr)
    requires Faithful(eval) && e.Compare? && e.op != Arithmetic && Predicate(crate, eval, e).Some?
    ensures Evaluates(crate, e, Bool(Predicate(crate, eval, e).value))
  {
    hide FixedValue, Apply, PartialCmp;
    FixedValueIsSound(crate, eval, e.left);
    FixedValueIsSound(crate, eval, e.right);
    var l, r := FixedValue(crate, eval, e.left).value.value, FixedValue(crate, eval, e.right).value.value;
    var f: nat :| Meaning(crate, e.left, f) == Some(l);
    var g: nat :| Meaning(crate, e.right, g) == Some(r);
    var h := if f < g then g else f;
    MoreFuelSameMeaning(crate, e.left, f, h);
    MoreFuelSameMeaning(crate, e.right, g, h);
    OrderDecidesTheOperator(e.op, l, r);
    assert Meaning(crate, e, h) == Some(Bool(Predicate(crate, eval, e).value));
  }

  /** Whenever folding answers, the condition evaluates to that answer and to nothing else. */
  lemma {:induction false} FoldingIsSound(crate: Crate, eval: Evaluator, e: Expr)
    requires Faithful(eval) && Predicate(crate, eval, e).Some?
    ensures Evaluates(crate, e, Bool(Predicate(crate, eval, e).value))
    ensures forall v :: Evaluates(crate, e, v) ==> v == Bool(Predicate(crate, eval, e).value)
    decreases e
  {
    hide FixedValue;
    if e.Not? {
      FoldingIsSound(crate, eval, e.inner);
      var b := Predicate(crate, eval, e.inner).value;
      var f: nat :| Meaning(crate, e.inner, f) == Some(Bool(b));
      assert Meaning(crate, e, f) == Some(Bool(!b));
    } else if e.Compare? && e.op != Arithmetic {
      ComparisonIsSound(crate, eval, e);
    } else {
      FixedValueIsSound(crate, eval, e);
    }
    forall v | Evaluates(crate, e, v) ensures v == Bool(Predicate(crate, eval, e).value) {
      EvaluatesOnce(crate, e, v, Bool(Predicate(crate, eval, e).value));
    }
  }

  // ----- when folding answers -----

  /** The constant an operand names, itself or under `len` or `is_empty`. */
  function Names(e: Expr): Option<ConstId> {
    if e.MethodCall? then LocalConstant(e.receiver) else LocalConstant(e)
  }

  /** The comparison under any number of negations. */
  function Innermost(e: Expr): Expr {
    if e.Not? then Innermost(e.inner) else e
  }

  /** The value an alias chain leads to, as far as the evaluator reads the literal at its end. */
  ghost predicate LeadsTo(crate: Crate, eval: Evaluator, e: Expr, v: Value) {
    exists n: nat :: Chase(crate, e, n).Some? && eval(Chase(crate, e, n).value) == Some(v)
  }

  /** An operand settles a value: itself, or as the length or emptiness of what it is called on. */
  ghost predicate Settles(crate: Crate, eval: Evaluator, e: Expr, v: Value) {
    if e.MethodCall? then e.written && exists u :: LeadsTo(crate, eval, e.receiver, u) && Measured(e.method_, u) == Some(v)
    else LeadsTo(crate, eval, e, v)
  }

  /** Two values of one type that is ordered; byte strings are not. */
  predicate Ordered(l: Value, r: Value) {
    (l.Bool? && r.Bool?) || (l.Int? && r.Int?) || (l.Float? && r.Float?) || (l.Char? && r.Char?) || (l.Str? && r.Str?)
  }

  /** What a condition without negations is settled to. */
  ghost predicate SettlesTo(crate: Crate, eval: Evaluator, e: Expr, b: bool) {
    if e.Compare? && e.op != Arithmetic then
      && !(Names(e.left).Some? && Names(e.right).Some? && Names(e.left) != Names(e.right))
      && exists l, r :: Settles(crate, eval, e.left, l) && Settles(crate, eval, e.right, r)
                        && Ordered(l, r) && Apply(e.op, l, r) == Some(b)
    else Settles(crate, eval, e, Bool(b))
  }

  /** The number of negations around a condition is odd. */
  predicate NegatedOddly(e: Expr) {
    e.Not? && !NegatedOddly(e.inner)
  }

  /** Literals written by hand, also behind one minus sign, lead to what the evaluator reads; a constant
      written by hand leads where its right-hand side does; nothing else leads anywhere. */
  lemma LeadsToByKind(crate: Crate, eval: Evaluator, e: Expr, v: Value)
    ensures LeadsTo(crate, eval, e, v) <==>
      match e
      case Lit(written, _) => written && eval(e) == Some(v)
      case Neg(written, inner) => written && inner.Lit? && inner.written && eval(e) == Some(v)
      case Path(written, constant) =>
        && written && constant.Some? && constant.value in crate
        && crate[constant.value].Const? && crate[constant.value].written
        && LeadsTo(crate, eval, crate[constant.value].rhs, v)
      case _ => false
  {
    if n: nat :| Chase(crate, e, n).Some? && eval(Chase(crate, e, n).value) == Some(v) {
      if n > 0 { assert Chase(crate, e, n) == Chase(crate, Alias(crate, e).value, n - 1); }
    }
    if IsLiteral(e) && eval(e) == Some(v) {
      assert Chase(crate, e, 0) == Some(e);
    }
    var rhs := Alias(crate, e);
    if rhs.Some? && LeadsTo(crate, eval, rhs.value, v) {
      var n: nat :| Chase(crate, rhs.value, n).Some? && eval(Chase(crate, rhs.value, n).value) == Some(v);
      assert Chase(crate, e, n + 1) == Chase(crate, rhs.value, n);
    }
  }

  lemma LiteralIffLeadsTo(crate: Crate, eval: Evaluator, e: Expr, v: Value)
    ensures LeadsTo(crate, eval, e, v) <==> LiteralValue(crate, eval, e) == Some(Fixed(v, LocalConstant(e)))
  {
    hide SourceLiteral, Chase;
    if LeadsTo(crate, eval, e, v) {
      var n: nat :| Chase(crate, e, n).Some? && eval(Chase(crate, e, n).value) == Some(v);
      var l := Chase(crate, e, n).value;
      FoundIffReached(crate, e, l);
      assert Chase(crate, e, n) == Some(l);
      assert SourceLiteral(crate, e, {}) == Some(l);
    }
    if LiteralValue(crate, eval, e).Some? {
      var n := FoundIsReached(crate, e, {});
      assert eval(Chase(crate, e, n).value) == Some(LiteralValue(crate, eval, e).value.value);
    }
  }

  /** An operand has a fixed value exactly when it settles one, and its source is the constant it names. */
  lemma FixedIffSettles(crate: Crate, eval: Evaluator, e: Expr, v: Value)
    ensures Settles(crate, eval, e, v) <==> FixedValue(crate, eval, e) == Some(Fixed(v, Names(e)))
    ensures FixedValue(crate, eval, e).Some? ==> FixedValue(crate, eval, e).value.source == Names(e)
  {
    hide LeadsTo, LiteralValue;
    if e.MethodCall? {
      forall u ensures LeadsTo(crate, eval, e.receiver, u) <==>
          LiteralValue(crate, eval, e.receiver) == Some(Fixed(u, LocalConstant(e.receiver)))
      {
        LiteralIffLeadsTo(crate, eval, e.receiver, u);
      }
      LiteralSource(crate, eval, e.receiver);
    } else {
      LiteralIffLeadsTo(crate, eval, e, v);
      LiteralSource(crate, eval, e);
    }
  }

  lemma LiteralSource(crate: Crate, eval: Evaluator, e: Expr)
    ensures LiteralValue(crate, eval, e).Some? ==> LiteralValue(crate, eval, e).value.source == LocalConstant(e)
  {}

  lemma OrderedIffComparable(l: Value, r: Value)
    ensures PartialCmp(l, r).Some? <==> Ordered(l, r)
  {}

  lemma ComparisonIffSettles(crate: Crate, eval: Evaluator, e: Expr, b: bool)
    requires e.Compare? && e.op != Arithmetic
    ensures Predicate(crate, eval, e) == Some(b) <==> SettlesTo(crate, eval, e, b)
  {
    hide FixedValue, Settles, Apply, PartialCmp, Judged, Ordered, Names;
    forall v ensures Settles(crate, eval, e.left, v) <==> FixedValue(crate, eval, e.left) == Some(Fixed(v, Names(e.left))) {
      FixedIffSettles(crate, eval, e.left, v);
    }
    forall v ensures Settles(crate, eval, e.right, v) <==> FixedValue(crate, eval, e.right) == Some(Fixed(v, Names(e.right))) {
      FixedIffSettles(crate, eval, e.right, v);
    }
    FixedIffSettles(crate, eval, e.left, Bool(b));
    FixedIffSettles(crate, eval, e.right, Bool(b));
    var x, y := FixedValue(crate, eval, e.left), FixedValue(crate, eval, e.right);
    if x.Some? && y.Some? {
      OrderedIffComparable(x.value.value, y.value.value);
      if PartialCmp(x.value.value, y.value.value).Some? { OrderDecidesTheOperator(e.op, x.value.value, y.value.value); }
    }
  }

  /** Folding answers, and answers so, exactly when the condition under its negations is settled so:
      the aliases of every operand end at literals that can be read, two of them are of one ordered
      type and name no two different constants, and the operator accepts them. */
  lemma {:induction false} AnsweredIffSettled(crate: Crate, eval: Evaluator, e: Expr, b: bool)
    ensures Predicate(crate, eval, e) == Some(b) <==>
      SettlesTo(crate, eval, Innermost(e), if NegatedOddly(e) then !b else b)
    decreases e
  {
    hide FixedValue, SettlesTo;
    if e.Not? {
      AnsweredIffSettled(crate, eval, e.inner, !b);
    } else if e.Compare? && e.op != Arithmetic {
      ComparisonIffSettles(crate, eval, e, b);
    } else {
      BareIffSettles(crate, eval, e, b);
    }
  }

  lemma BareIffSettles(crate: Crate, eval: Evaluator, e: Expr, b: bool)
    requires !e.Not? && !(e.Compare? && e.op != Arithmetic)
    ensures Predicate(crate, eval, e) == Some(b) <==> SettlesTo(crate, eval, e, b)
  {
    hide FixedValue, Settles;
    FixedIffSettles(crate, eval, e, Bool(b));
  }

  // ----- what it never answers -----

  /** A comparison between two differently named constants is never answered, however it is
      negated and whatever the constants are. */
  lemma {:induction false} ConstantsAreLeftAlone(crate: Crate, eval: Evaluator, e: Expr)
    requires
      var c := Innermost(e);
      c.Compare? && Names(c.left).Some? && Names(c.right).Some? && Names(c.left) != Names(c.right)
    ensures Predicate(crate, eval, e) == None
  {
    if e.Not? { ConstantsAreLeftAlone(crate, eval, e.inner); }
  }

  /** What folding reads the value of: both sides of a comparison, or the condition itself. */
  function Operands(e: Expr): seq<Expr> {
    if e.Compare? && e.op != Arithmetic then [e.left, e.right] else [e]
  }

  function Receiver(e: Expr): Expr {
    if e.MethodCall? then e.receiver else e
  }

  /** A constant whose aliases run in a circle is never part of an answer. */
  lemma {:induction false} CyclesAreLeftAlone(crate: Crate, eval: Evaluator, e: Expr, operand: Expr, k: nat)
    requires k > 0 && operand in Operands(Innermost(e))
    requires After(crate, Receiver(operand), k) == Some(Receiver(operand))
    ensures Predicate(crate, eval, e) == None
    decreases e
  {
    if e.Not? {
      CyclesAreLeftAlone(crate, eval, e.inner, operand, k);
    } else {
      CyclesHaveNoLiteral(crate, Receiver(operand), k);
    }
  }
}
