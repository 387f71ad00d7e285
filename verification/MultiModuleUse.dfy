/** `use` statements that reach into more than one module. */
module MultiModuleUse {

  /** A `use` tree: a path that names one item, a glob behind a path, or a group behind a path.
      The path is its list of segments; `self` is one segment. */
  datatype UseTree =
    | Simple(prefix: seq<string>)
    | Glob(prefix: seq<string>)
    | Nested(prefix: seq<string>, items: seq<UseTree>)

  predicate CrossesModule(tree: UseTree) {
    match tree
    case Simple(prefix) => |prefix| > 1
    case Glob(prefix) => prefix != []
    case Nested(prefix, _) => prefix != []
  }

  // ----- what a statement imports -----

  /** The modules, as paths from where `tree` stands, that the leaves of `tree` name items of. */
  function Modules(tree: UseTree): seq<seq<string>> {
    match tree
    case Simple(prefix) => [if prefix == [] then [] else prefix[..|prefix| - 1]]
    case Glob(prefix) => [prefix]
    case Nested(prefix, items) => Behind(prefix, AllModules(items))
  }

  function AllModules(items: seq<UseTree>): seq<seq<string>> {
    if items == [] then [] else AllModules(items[..|items| - 1]) + Modules(items[|items| - 1])
  }

  function Behind(prefix: seq<string>, modules: seq<seq<string>>): (r: seq<seq<string>>)
    ensures |r| == |modules| && forall i :: 0 <= i < |r| ==> r[i] == prefix + modules[i]
  {
    seq(|modules|, i requires 0 <= i < |modules| => prefix + modules[i])
  }

  /** Whether a group inside `tree` stands behind a path and imports nothing at all. */
  predicate HasEmptyGroup(tree: UseTree) {
    tree.Nested? && ((tree.prefix != [] && AllModules(tree.items) == []) || AnyHasEmptyGroup(tree.items))
  }

  predicate AnyHasEmptyGroup(items: seq<UseTree>) {
    items != [] && (AnyHasEmptyGroup(items[..|items| - 1]) || HasEmptyGroup(items[|items| - 1]))
  }

  predicate AllHere(modules: seq<seq<string>>) {
    forall i :: 0 <= i < |modules| ==> modules[i] == []
  }

  // ----- the lint -----

  /** The outermost entries of a group that cross into another module, in order. */
  function Offenders(items: seq<UseTree>): seq<UseTree>
    decreases items
  {
    if items == [] then []
    else
      var last := items[|items| - 1];
      Offenders(items[..|items| - 1])
      + if CrossesModule(last) then [last] else if last.Nested? then Offenders(last.items) else []
  }

  method CollectOffenders(tree: UseTree) returns (offenders: seq<UseTree>)
    ensures offenders == if tree.Nested? then Offenders(tree.items) else []
    decreases tree
  {
    offenders := [];
    if !tree.Nested? { return; }
    for i := 0 to |tree.items|
      invariant offenders == Offenders(tree.items[..i])
    {
      var child := tree.items[i];
      assert tree.items[..i + 1][..i] == tree.items[..i];
      if CrossesModule(child) {
        offenders := offenders + [child];
      } else {
        var more := CollectOffenders(child);
        offenders := offenders + more;
      }
    }
    assert tree.items[..|tree.items|] == tree.items;
  }

  // ----- what silence means -----

  lemma AllHereConcat(a: seq<seq<string>>, b: seq<seq<string>>)
    ensures AllHere(a + b) <==> AllHere(a) && AllHere(b)
  {
    assert forall i :: 0 <= i < |a| ==> (a + b)[i] == a[i];
    assert forall i :: 0 <= i < |b| ==> (a + b)[|a| + i] == b[i];
  }

  lemma BehindNothing(modules: seq<seq<string>>)
    ensures Behind([], modules) == modules
  {
    assert forall i :: 0 <= i < |modules| ==> [] + modules[i] == modules[i];
  }

  /** Every simple entry has at least the segment it names. */
  predicate WellFormed(tree: UseTree) {
    match tree
    case Simple(prefix) => prefix != []
    case Glob(_) => true
    case Nested(_, items) => AllWellFormed(items)
  }

  predicate AllWellFormed(items: seq<UseTree>) {
    items == [] || (AllWellFormed(items[..|items| - 1]) && WellFormed(items[|items| - 1]))
  }

  lemma {:induction false} EntryIsSilentIffHere(tree: UseTree)
    requires WellFormed(tree)
    ensures (!CrossesModule(tree) && (tree.Nested? ==> Offenders(tree.items) == []))
            <==> (AllHere(Modules(tree)) && !HasEmptyGroup(tree))
    decreases tree, 1
  {
    match tree
    case Simple(prefix) => assert AllHere(Modules(tree)) <==> Modules(tree)[0] == [];
    case Glob(prefix) => assert AllHere(Modules(tree)) <==> Modules(tree)[0] == [];
    case Nested(prefix, items) =>
      if prefix == [] {
        BehindNothing(AllModules(items));
        GroupIsSilentIffHere(items);
      } else if AllModules(items) != [] {
        assert Modules(tree)[0] == prefix + AllModules(items)[0];
      }
  }

  /** A group is left alone exactly when every leaf stays in the group's own module and no group
      inside it imports nothing from behind a path. */
  lemma {:induction false} GroupIsSilentIffHere(items: seq<UseTree>)
    requires AllWellFormed(items)
    ensures Offenders(items) == [] <==> AllHere(AllModules(items)) && !AnyHasEmptyGroup(items)
    decreases items, 0
  {
    if items == [] {
    } else {
      var init, last := items[..|items| - 1], items[|items| - 1];
      GroupIsSilentIffHere(init);
      EntryIsSilentIffHere(last);
      AllHereConcat(AllModules(init), Modules(last));
    }
  }

  // ----- what the offenders import -----

  function Elsewhere(modules: seq<seq<string>>): seq<seq<string>> {
    if modules == [] then []
    else
      var last := modules[|modules| - 1];
      Elsewhere(modules[..|modules| - 1]) + if last != [] then [last] else []
  }

  lemma {:induction false} ElsewhereConcat(a: seq<seq<string>>, b: seq<seq<string>>)
    ensures Elsewhere(a + b) == Elsewhere(a) + Elsewhere(b)
  {
    if b == [] {
      assert a + b == a;
    } else {
      ElsewhereConcat(a, b[..|b| - 1]);
      assert (a + b)[..|a + b| - 1] == a + b[..|b| - 1];
    }
  }

  lemma {:induction false} ModulesConcat(a: seq<UseTree>, b: seq<UseTree>)
    ensures AllModules(a + b) == AllModules(a) + AllModules(b)
  {
    hide Modules;
    if b == [] {
      assert a + b == a;
    } else {
      var init, last := b[..|b| - 1], b[|b| - 1];
      ModulesConcat(a, init);
      assert (a + b)[..|a + b| - 1] == a + init && (a + b)[|a + b| - 1] == last;
      assert AllModules(a + b) == AllModules(a + init) + Modules(last);
    }
  }

  lemma {:induction false} AllElsewhere(modules: seq<seq<string>>)
    requires forall i :: 0 <= i < |modules| ==> modules[i] != []
    ensures Elsewhere(modules) == modules
  {
    if modules == [] {
    } else {
      AllElsewhere(modules[..|modules| - 1]);
    }
  }

  lemma CrossingIsElsewhere(tree: UseTree)
    requires WellFormed(tree) && CrossesModule(tree)
    ensures Elsewhere(Modules(tree)) == Modules(tree) == AllModules([tree])
  {
    AllElsewhere(Modules(tree));
    assert [tree][..0] == [] && AllModules([]) == [];
  }

  lemma {:induction false} EntryOffendersImport(tree: UseTree)
    requires WellFormed(tree) && !CrossesModule(tree)
    ensures
      var offenders := if tree.Nested? then Offenders(tree.items) else [];
      AllModules(offenders) == Elsewhere(Modules(tree))
    decreases tree, 1
  {
    match tree
    case Simple(prefix) => HereIsNotElsewhere();
    case Glob(prefix) => HereIsNotElsewhere();
    case Nested(prefix, items) =>
      BehindNothing(AllModules(items));
      OffendersImportWhatLeaves(items);
  }

  lemma HereIsNotElsewhere()
    ensures Elsewhere([[]]) == []
  {
    var one: seq<seq<string>> := [[]];
    assert one[..0] == [];
  }

  /** Together the offenders of a group import exactly what the group imports from other modules, in the
      order in which the group names it. */
  lemma {:induction false} OffendersImportWhatLeaves(items: seq<UseTree>)
    requires AllWellFormed(items)
    ensures AllModules(Offenders(items)) == Elsewhere(AllModules(items))
    decreases items, 0
  {
    if items == [] {
    } else {
      var init, last := items[..|items| - 1], items[|items| - 1];
      OffendersImportWhatLeaves(init);
      ElsewhereConcat(AllModules(init), Modules(last));
      if CrossesModule(last) {
        CrossingIsElsewhere(last);
        ModulesConcat(Offenders(init), [last]);
      } else {
        EntryOffendersImport(last);
        ModulesConcat(Offenders(init), if last.Nested? then Offenders(last.items) else []);
      }
    }
  }
}
