/** Narrowing a suite to the cases a run is asked for: patterns compiled to regular expressions, tags,
    and a split. */
module CaseSelection {
  import opened Wrappers
  import opened RegexModel
  import opened Whitespace

  // ----- what a glob denotes -----

  /** `*` stands for any run of characters, `?` for one, everything else for itself, and the
      pattern for the whole id. */
  ghost predicate Denotes(p: string, id: string) {
    if p == "" then id == ""
    else if p[0] == '*' then exists k :: 0 <= k <= |id| && Denotes(p[1..], id[k..])
    else if p[0] == '?' then id != "" && Denotes(p[1..], id[1..])
    else id != "" && id[0] == p[0] && Denotes(p[1..], id[1..])
  }

  /** The same, with wildcards that stop at a line feed. */
  ghost predicate DenotesInLine(p: string, id: string) {
    if p == "" then id == ""
    else if p[0] == '*' then exists k :: 0 <= k <= |id| && '\n' !in id[..k] && DenotesInLine(p[1..], id[k..])
    else if p[0] == '?' then id != "" && id[0] != '\n' && DenotesInLine(p[1..], id[1..])
    else id != "" && id[0] == p[0] && DenotesInLine(p[1..], id[1..])
  }

  lemma {:induction false} LinesDoNotMatter(p: string, id: string)
    requires '\n' !in id
    ensures DenotesInLine(p, id) <==> Denotes(p, id)
    decreases |p|
  {
    if p == "" {
    } else if p[0] == '*' {
      forall k | 0 <= k <= |id| ensures DenotesInLine(p[1..], id[k..]) <==> Denotes(p[1..], id[k..]) {
        LinesDoNotMatter(p[1..], id[k..]);
      }
    } else if id != "" {
      LinesDoNotMatter(p[1..], id[1..]);
    }
  }

  // ----- compiling -----

  function CompileChar(c: char): string {
    if c == '*' then ".*" else if c == '?' then "." else Escape(c)
  }

  function CompileChars(p: string): string {
    if p == "" then "" else CompileChars(p[..|p| - 1]) + CompileChar(p[|p| - 1])
  }

  function ItemOf(c: char): Item {
    if c == '*' then Item(AnyButNewline, true)
    else if c == '?' then Item(AnyButNewline, false)
    else Item(Literal(c), false)
  }

  function ItemsOf(p: string): (items: seq<Item>)
    ensures |items| == |p| && forall i :: 0 <= i < |p| ==> items[i] == ItemOf(p[i])
  {
    seq(|p|, i requires 0 <= i < |p| => ItemOf(p[i]))
  }

  lemma {:induction false} CompileCons(c: char, p: string)
    ensures CompileChars([c] + p) == CompileChar(c) + CompileChars(p)
  {
    hide CompileChar;
    var s := [c] + p;
    if p == "" {
      assert s[..|s| - 1] == "";
      assert CompileChars("") == "";
    } else {
      CompileCons(c, p[..|p| - 1]);
      assert s[..|s| - 1] == [c] + p[..|p| - 1];
    }
  }

  function CompileTail(p: string): string {
    CompileChars(p) + "$"
  }

  lemma CompileTailCons(p: string)
    requires p != ""
    ensures CompileTail(p) == CompileChar(p[0]) + CompileTail(p[1..])
  {
    CompileCons(p[0], p[1..]);
    hide CompileChar, CompileChars;
    assert p == [p[0]] + p[1..];
  }

  /** A compiled pattern never starts with something that would extend the item before it. */
  lemma CompiledStart(p: string)
    ensures CompileTail(p) != "" && CompileTail(p)[0] !in "*+?{"
  {
    if p != "" {
      CompileTailCons(p);
    }
  }

  lemma ReadsOne(c: char, rest: string)
    requires rest != "" && rest[0] !in "*+?{"
    ensures var s := CompileChar(c) + rest;
      && s != "$" && s != "" && ReadAtom(s).Some?
      && ReadAtom(s).value == (ItemOf(c).atom, if c == '*' then "*" + rest else rest)
  {
    var s := CompileChar(c) + rest;
    if c == '*' {
      assert s[1..] == "*" + rest;
    } else if c == '?' {
      assert s[1..] == rest;
    } else if IsMeta(c) {
      assert s[2..] == rest;
    } else {
      assert s[1..] == rest;
    }
  }

  lemma ReadsNext(c: char, rest: string)
    requires rest != "" && rest[0] !in "*+?{"
    ensures ReadItems(CompileChar(c) + rest) ==
      match ReadItems(rest) case None => None case Some((items, toEnd)) => Some(([ItemOf(c)] + items, toEnd))
  {
    ReadsOne(c, rest);
    hide CompileChar, ReadAtom;
    assert c == '*' ==> ("*" + rest)[1..] == rest;
  }

  lemma NothingReadsBack(p: string)
    requires p == ""
    ensures ReadItems(CompileTail(p)) == Some((ItemsOf(p), true))
  {}

  /** Reading the compiled text back gives one item for each character of the pattern. */
  lemma {:induction false} CompiledReadsBack(p: string)
    ensures ReadItems(CompileTail(p)) == Some((ItemsOf(p), true))
    decreases |p|
  {
    hide ReadItems, CompileChar, CompileTail, ItemOf;
    if p == "" {
      NothingReadsBack(p);
    } else {
      CompileTailCons(p);
      CompiledStart(p[1..]);
      ReadsNext(p[0], CompileTail(p[1..]));
      CompiledReadsBack(p[1..]);
      assert ItemsOf(p) == [ItemOf(p[0])] + ItemsOf(p[1..]);
    }
  }

  // ----- matching -----

  lemma {:induction false} StarRuns(items: seq<Item>, id: string)
    requires items != [] && items[0] == Item(AnyButNewline, true)
    ensures MatchesExactly(items, id) <==>
              exists k :: 0 <= k <= |id| && '\n' !in id[..k] && MatchesExactly(items[1..], id[k..])
    decreases |id|
  {
    if id != "" && id[0] != '\n' {
      StarRuns(items, id[1..]);
      forall k | 0 <= k <= |id[1..]| && '\n' !in id[1..][..k] && MatchesExactly(items[1..], id[1..][k..])
        ensures '\n' !in id[..k + 1] && MatchesExactly(items[1..], id[k + 1..])
      {
        assert id[..k + 1] == [id[0]] + id[1..][..k];
        assert id[k + 1..] == id[1..][k..];
      }
      forall k | 0 < k <= |id| && '\n' !in id[..k] && MatchesExactly(items[1..], id[k..])
        ensures '\n' !in id[1..][..k - 1] && MatchesExactly(items[1..], id[1..][k - 1..])
      {
        assert id[..k] == [id[0]] + id[1..][..k - 1];
        assert id[k..] == id[1..][k - 1..];
      }
    }
    assert id[0..] == id;
    forall k | 0 < k <= |id| && '\n' !in id[..k] ensures id[0] != '\n' {
      assert id[0] in id[..k];
    }
  }

  lemma {:induction false} ItemsDenoteGlob(p: string, id: string)
    ensures MatchesExactly(ItemsOf(p), id) <==> DenotesInLine(p, id)
    decreases |p|
  {
    var items := ItemsOf(p);
    if p == "" {
    } else {
      assert items[1..] == ItemsOf(p[1..]);
      if p[0] == '*' {
        StarRuns(items, id);
        forall k | 0 <= k <= |id| ensures MatchesExactly(items[1..], id[k..]) <==> DenotesInLine(p[1..], id[k..]) {
          ItemsDenoteGlob(p[1..], id[k..]);
        }
      } else if id != "" {
        ItemsDenoteGlob(p[1..], id[1..]);
      }
    }
  }

  function Compile(p: string): string {
    "^" + CompileTail(p)
  }

  /** The compiled pattern is a usable expression that accepts exactly the ids its glob denotes
      with wildcards that stop at a line feed. */
  lemma CompiledAccepts(p: string, id: string)
    ensures ReadRegex(Compile(p)) == Some(Regex(true, ItemsOf(p), true))
    ensures IsMatch(Regex(true, ItemsOf(p), true), id) <==> DenotesInLine(p, id)
  {
    CompiledReadsBack(p);
    ItemsDenoteGlob(p, id);
    hide CompileTail, ReadItems, MatchesExactly, DenotesInLine;
    assert Compile(p)[1..] == CompileTail(p);
    assert id[0..|id|] == id;
  }

  function Matcher(p: string): Regex {
    Regex(true, ItemsOf(p), true)
  }

  /** The patterns all mean what they denote on an id exactly when the id holds no line feed. */
  lemma GlobsAreExactWithoutLineFeeds(id: string)
    ensures (forall p :: IsMatch(Matcher(p), id) <==> Denotes(p, id)) <==> '\n' !in id
  {
    if '\n' !in id {
      forall p ensures IsMatch(Matcher(p), id) <==> Denotes(p, id) {
        CompiledAccepts(p, id);
        LinesDoNotMatter(p, id);
      }
    } else {
      StarMissesLineFeed(id, "*");
    }
  }

  lemma StarMissesLineFeed(id: string, p: string)
    requires '\n' in id && p == "*"
    ensures Denotes(p, id) && !IsMatch(Matcher(p), id)
  {
    var none := p[1..];
    assert Denotes(none, id[|id|..]);
    CompiledAccepts(p, id);
    forall k | 0 <= k <= |id| && DenotesInLine(none, id[k..]) ensures '\n' in id[..k] {
      assert id[..k] == id;
    }
  }

  // ----- parsing a pattern -----

  datatype CasePattern = CasePattern(source: string, matcher: Regex)

  /** Refuses an empty pattern and nothing else: every other one compiles. */
  method ParsePattern(source: string) returns (r: Result<CasePattern>)
    ensures r.Err? <==> Trim(source) == ""
    ensures r.Ok? ==> r.value.source == Trim(source)
    ensures r.Ok? ==> forall id :: IsMatch(r.value.matcher, id) <==> DenotesInLine(Trim(source), id)
    ensures r.Ok? ==> forall id :: '\n' !in id ==> (IsMatch(r.value.matcher, id) <==> Denotes(Trim(source), id))
  {
    hide IsMatch, Denotes, DenotesInLine, Trim, ReadRegex, CompileChar;
    var trimmed := Trim(source);
    if trimmed == "" {
      return Err;
    }
    var expression := "^";
    for i := 0 to |trimmed|
      invariant expression == "^" + CompileChars(trimmed[..i])
    {
      assert trimmed[..i + 1][..i] == trimmed[..i];
      expression := expression + CompileChar(trimmed[i]);
    }
    expression := expression + "$";
    assert trimmed[..|trimmed|] == trimmed;
    assert expression == Compile(trimmed);
    var matcher := ReadRegex(expression);
    PatternIsUsable(trimmed);
    r := match matcher { case None => Err case Some(m) => Ok(CasePattern(trimmed, m)) };
  }

  lemma PatternIsUsable(p: string)
    ensures ReadRegex(Compile(p)) == Some(Matcher(p))
    ensures forall id :: IsMatch(Matcher(p), id) <==> DenotesInLine(p, id)
    ensures forall id :: '\n' !in id ==> (IsMatch(Matcher(p), id) <==> Denotes(p, id))
  {
    CompiledAccepts(p, p);
    hide IsMatch, Denotes, DenotesInLine, Compile, ReadRegex;
    forall id
      ensures IsMatch(Matcher(p), id) <==> DenotesInLine(p, id)
      ensures '\n' !in id ==> (IsMatch(Matcher(p), id) <==> Denotes(p, id))
    {
      CompiledAccepts(p, id);
      if '\n' !in id { LinesDoNotMatter(p, id); }
    }
  }

  // ----- covering a suite -----

  datatype EvalSplit = Train | Test
  datatype EvalCase = EvalCase(id: string, tags: Option<seq<string>>, split: EvalSplit)

  datatype Selection = WholeSuite | Narrowed(patterns: seq<CasePattern>, tags: seq<string>, split: Option<EvalSplit>) {
    predicate Covers(c: EvalCase) {
      match this
      case WholeSuite => true
      case Narrowed(patterns, tags, split) =>
        && (patterns == [] || exists i :: 0 <= i < |patterns| && IsMatch(patterns[i].matcher, c.id))
        && (tags == [] || (c.tags.Some? && exists t :: t in tags && t in c.tags.value))
        && (split.None? || split.value == c.split)
    }

    function Covered(cases: seq<EvalCase>): seq<EvalCase> {
      if cases == [] then []
      else
        var before := Covered(cases[..|cases| - 1]);
        if Covers(cases[|cases| - 1]) then before + [cases[|cases| - 1]] else before
    }

    /** Refuses a narrowing that covers none of the cases. */
    function Apply(cases: seq<EvalCase>): Result<seq<EvalCase>> {
      if WholeSuite? then Ok(cases)
      else if Covered(cases) == [] then Err
      else Ok(Covered(cases))
    }

    /** Whether a report says that a narrowing happened. */
    predicate Records(covered: nat, declared: nat) {
      Narrowed? && covered != declared
    }
  }

  lemma {:induction false} CoveredMembers(sel: Selection, cases: seq<EvalCase>)
    ensures forall c :: c in sel.Covered(cases) <==> c in cases && sel.Covers(c)
    ensures |sel.Covered(cases)| <= |cases|
    ensures |sel.Covered(cases)| == |cases| <==> forall c :: c in cases ==> sel.Covers(c)
  {
    hide Selection.Covers;
    if cases == [] {
    } else {
      var rest, last := cases[..|cases| - 1], cases[|cases| - 1];
      CoveredMembers(sel, rest);
      assert cases == rest + [last];
    }
  }

  /** A report names a narrowing exactly when some declared case was left out, however the
      selection was written. */
  lemma RecordsIffSomethingLeftOut(sel: Selection, cases: seq<EvalCase>)
    requires sel.Apply(cases).Ok?
    ensures sel.Records(|sel.Apply(cases).value|, |cases|) <==> exists c :: c in cases && !sel.Covers(c)
  {
    CoveredMembers(sel, cases);
  }

  /** An application fails exactly when a narrowing covers nothing, and applying a selection to
      what it selected selects the same. */
  lemma ApplyTwice(sel: Selection, cases: seq<EvalCase>)
    ensures sel.Apply(cases).Err? <==> sel.Narrowed? && forall c :: c in cases ==> !sel.Covers(c)
    ensures sel.Apply(cases).Ok? ==> sel.Apply(sel.Apply(cases).value) == sel.Apply(cases)
  {
    CoveredMembers(sel, cases);
    CoveredAgain(sel, cases);
    if sel.Narrowed? && sel.Covered(cases) != [] {
      assert sel.Covered(cases)[0] in cases;
    }
  }

  lemma {:induction false} CoveredAgain(sel: Selection, cases: seq<EvalCase>)
    ensures sel.Covered(sel.Covered(cases)) == sel.Covered(cases)
  {
    hide Selection.Covers;
    if cases == [] {
    } else {
      var rest, all := cases[..|cases| - 1], sel.Covered(cases);
      CoveredAgain(sel, rest);
      if sel.Covers(cases[|cases| - 1]) { assert all[..|all| - 1] == sel.Covered(rest); }
    }
  }

  /** Each dimension narrows the selection further, and an empty one does not narrow it at all. */
  lemma DimensionsNarrow(patterns: seq<CasePattern>, tags: seq<string>, split: Option<EvalSplit>, c: EvalCase)
    ensures Narrowed(patterns, tags, split).Covers(c) <==>
      Narrowed(patterns, [], None).Covers(c) && Narrowed([], tags, None).Covers(c) && Narrowed([], [], split).Covers(c)
    ensures Narrowed([], [], None).Covers(c)
  {}

  /** Within a dimension the values are alternatives. */
  lemma ValuesAreAlternatives(p: seq<CasePattern>, q: seq<CasePattern>, t: seq<string>, u: seq<string>, c: EvalCase)
    requires p != [] && q != [] && t != [] && u != []
    ensures Narrowed(p + q, [], None).Covers(c) <==> Narrowed(p, [], None).Covers(c) || Narrowed(q, [], None).Covers(c)
    ensures Narrowed([], t + u, None).Covers(c) <==> Narrowed([], t, None).Covers(c) || Narrowed([], u, None).Covers(c)
    ensures forall s :: Narrowed([], [s], None).Covers(c) <==> c.tags.Some? && s in c.tags.value
    ensures forall x: CasePattern :: Narrowed([x], [], None).Covers(c) <==> IsMatch(x.matcher, c.id)
  {
    hide IsMatch;
    var all := p + q;
    assert forall i :: 0 <= i < |p| ==> all[i] == p[i];
    assert forall i :: 0 <= i < |q| ==> all[|p| + i] == q[i];
    forall x: CasePattern ensures Narrowed([x], [], None).Covers(c) <==> IsMatch(x.matcher, c.id) {
      assert [x][0] == x;
    }
  }

  /** A split covers exactly the cases of that split. */
  lemma SplitsKeepTheirOwn(split: EvalSplit, cases: seq<EvalCase>)
    ensures forall c :: c in Narrowed([], [], Some(split)).Covered(cases) <==> c in cases && c.split == split
  {
    CoveredMembers(Narrowed([], [], Some(split)), cases);
  }

  /** Covered cases keep the order in which the suite declares them. */
  lemma {:induction false} CoveredConcat(sel: Selection, a: seq<EvalCase>, b: seq<EvalCase>)
    ensures sel.Covered(a + b) == sel.Covered(a) + sel.Covered(b)
  {
    hide Selection.Covers;
    if b == [] {
      assert a + b == a;
    } else {
      CoveredConcat(sel, a, b[..|b| - 1]);
      assert (a + b)[..|a + b| - 1] == a + b[..|b| - 1];
    }
  }
}
