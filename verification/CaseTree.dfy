/** A case directory as the file system shows it, and the worklist walk over it. */
module CaseTree {
  import opened Sorting

  type Byte = b: nat | b < 256
  type Name = seq<Byte>
  type Path = seq<Name>

  const NUL: Byte := 0
  const SLASH: Byte := 47

  /** What a directory listing names. A listing comes in no particular order. */
  datatype Node =
    | File(bytes: seq<Byte>)
    | Directory(entries: seq<Entry>)
    | Symlink(target: Node)   // what it points at; `Special` when that is missing
    | Special

  datatype Entry = Entry(name: Name, node: Node)

  predicate ValidName(name: Name) {
    name != [] && NUL !in name && SLASH !in name
  }

  /** What is found at the end of a chain of links, as asking for a file or a directory does. */
  function Follow(n: Node): Node {
    if n.Symlink? then Follow(n.target) else n
  }

  ghost predicate WellFormed(entries: seq<Entry>) {
    && (forall i, j :: 0 <= i < j < |entries| ==> entries[i].name != entries[j].name)
    && (forall i :: 0 <= i < |entries| ==> ValidName(entries[i].name) && WellFormedNode(entries[i].node))
  }

  ghost predicate WellFormedNode(n: Node) {
    match n
    case Directory(entries) => WellFormed(entries)
    case Symlink(target) => WellFormedNode(target)
    case _ => true
  }

  ghost predicate HasSymlink(entries: seq<Entry>) {
    entries != [] &&
    (entries[0].node.Symlink?
     || (entries[0].node.Directory? && HasSymlink(entries[0].node.entries))
     || HasSymlink(entries[1..]))
  }

  /** The node a relative path leads to. */
  function Lookup(entries: seq<Entry>, path: Path): (n: Node)
    decreases entries
  {
    if entries == [] || path == [] then Special
    else if entries[0].name != path[0] then Lookup(entries[1..], path)
    else if |path| == 1 then entries[0].node
    else if entries[0].node.Directory? then Lookup(entries[0].node.entries, path[1..])
    else Special
  }

  /** Every regular file below the entries, each path starting with `prefix`. */
  ghost function FilesUnder(entries: seq<Entry>, prefix: Path): seq<Path>
    decreases entries
  {
    if entries == [] then []
    else
      (match entries[0].node
       case File(_) => [prefix + [entries[0].name]]
       case Directory(sub) => FilesUnder(sub, prefix + [entries[0].name])
       case _ => []) + FilesUnder(entries[1..], prefix)
  }

  ghost function Size(entries: seq<Entry>): nat
    decreases entries
  {
    if entries == [] then 0
    else 1 + (if entries[0].node.Directory? then 1 + Size(entries[0].node.entries) else 0) + Size(entries[1..])
  }

  // ----- the walk -----

  datatype Pending = Pending(dir: Path, entries: seq<Entry>)
  datatype Collected = Refused | Files(paths: seq<Path>)

  ghost function PendingFiles(pending: seq<Pending>): multiset<Path> {
    if pending == [] then multiset{}
    else PendingFiles(pending[..|pending| - 1])
         + multiset(FilesUnder(pending[|pending| - 1].entries, pending[|pending| - 1].dir))
  }

  ghost predicate PendingSymlink(pending: seq<Pending>) {
    exists i :: 0 <= i < |pending| && HasSymlink(pending[i].entries)
  }

  ghost function PendingSize(pending: seq<Pending>): nat {
    if pending == [] then 0
    else PendingSize(pending[..|pending| - 1]) + 1 + Size(pending[|pending| - 1].entries)
  }

  lemma PushPending(pending: seq<Pending>, p: Pending)
    ensures PendingFiles(pending + [p]) == PendingFiles(pending) + multiset(FilesUnder(p.entries, p.dir))
    ensures PendingSymlink(pending + [p]) <==> PendingSymlink(pending) || HasSymlink(p.entries)
    ensures PendingSize(pending + [p]) == PendingSize(pending) + 1 + Size(p.entries)
  {}

  lemma NothingPending()
    ensures PendingFiles([]) == multiset{} && !PendingSymlink([]) && PendingSize([]) == 0
    ensures forall dir :: FilesUnder([], dir) == []
    ensures !HasSymlink([]) && Size([]) == 0
  {}

  lemma NextEntry(entries: seq<Entry>, i: nat, dir: Path)
    requires i < |entries|
    ensures var entry, from, after := entries[i], entries[i..], entries[i + 1..];
      && multiset(FilesUnder(from, dir)) == multiset(FilesUnder(after, dir)) +
           (match entry.node
            case File(_) => multiset{dir + [entry.name]}
            case Directory(sub) => multiset(FilesUnder(sub, dir + [entry.name]))
            case _ => multiset{})
      && (HasSymlink(from) <==> entry.node.Symlink? || HasSymlink(after)
                                 || (entry.node.Directory? && HasSymlink(entry.node.entries)))
      && Size(from) == Size(after) + 1 + (if entry.node.Directory? then 1 + Size(entry.node.entries) else 0)
  {}

  /** What is still to be found is what is still pending, after every step of the walk. */
  ghost predicate Walking(root: seq<Entry>, files: seq<Path>, pending: seq<Pending>, rest: seq<Entry>, dir: Path) {
    && multiset(files) + PendingFiles(pending) + multiset(FilesUnder(rest, dir)) == multiset(FilesUnder(root, []))
    && (PendingSymlink(pending) || HasSymlink(rest) <==> HasSymlink(root))
  }

  lemma WalkFile(root: seq<Entry>, files: seq<Path>, pending: seq<Pending>, entries: seq<Entry>, i: nat, dir: Path)
    requires i < |entries| && Walking(root, files, pending, entries[i..], dir)
    requires entries[i].node.File? || entries[i].node.Special?
    ensures Walking(root, if entries[i].node.File? then files + [dir + [entries[i].name]] else files, pending,
                    entries[i + 1..], dir)
  {
    NextEntry(entries, i, dir);
    hide FilesUnder, HasSymlink, PendingFiles, PendingSymlink;
  }

  lemma WalkDirectory(root: seq<Entry>, files: seq<Path>, pending: seq<Pending>, entries: seq<Entry>, i: nat, dir: Path)
    requires i < |entries| && Walking(root, files, pending, entries[i..], dir) && entries[i].node.Directory?
    ensures Walking(root, files, pending + [Pending(dir + [entries[i].name], entries[i].node.entries)],
                    entries[i + 1..], dir)
  {
    NextEntry(entries, i, dir);
    PushPending(pending, Pending(dir + [entries[i].name], entries[i].node.entries));
    hide FilesUnder, HasSymlink, PendingFiles, PendingSymlink;
  }

  lemma PopPending(pending: seq<Pending>)
    requires pending != []
    ensures var rest, next := pending[..|pending| - 1], pending[|pending| - 1];
      && PendingFiles(pending) == PendingFiles(rest) + multiset(FilesUnder(next.entries, next.dir))
      && (PendingSymlink(pending) <==> PendingSymlink(rest) || HasSymlink(next.entries))
      && PendingSize(pending) == PendingSize(rest) + 1 + Size(next.entries)
  {
    var rest, next := pending[..|pending| - 1], pending[|pending| - 1];
    assert pending == rest + [next];
    PushPending(rest, next);
  }

  lemma Regroup(a: multiset<Path>, b: multiset<Path>, c: multiset<Path>)
    ensures a + (b + c) + multiset{} == a + b + c
  {}

  lemma WalkPop(root: seq<Entry>, files: seq<Path>, pending: seq<Pending>)
    requires pending != [] && Walking(root, files, pending, [], [])
    ensures var next := pending[|pending| - 1]; Walking(root, files, pending[..|pending| - 1], next.entries, next.dir)
  {
    PopPending(pending);
    NothingPending();
    var next := pending[|pending| - 1];
    Regroup(multiset(files), PendingFiles(pending[..|pending| - 1]), multiset(FilesUnder(next.entries, next.dir)));
    hide FilesUnder, HasSymlink, PendingFiles, PendingSymlink, PendingSize, Size;
  }

  lemma WalkPause(root: seq<Entry>, files: seq<Path>, pending: seq<Pending>, dir: Path)
    requires Walking(root, files, pending, [], dir)
    ensures Walking(root, files, pending, [], [])
  {}

  /** Collects the relative path of every regular file below a case directory, refusing the
      directory as soon as a symlink is met anywhere in it. */
  method CollectCaseFiles(root: seq<Entry>) returns (r: Collected)
    ensures r.Refused? <==> HasSymlink(root)
    ensures r.Files? ==> multiset(r.paths) == multiset(FilesUnder(root, []))
  {
    hide FilesUnder, HasSymlink, Size, PendingFiles, PendingSymlink, PendingSize;
    NothingPending();
    PushPending([], Pending([], root));
    var files: seq<Path> := [];
    var pending := [] + [Pending([], root)];
    while pending != []
      invariant Walking(root, files, pending, [], [])
      decreases PendingSize(pending)
    {
      WalkPop(root, files, pending);
      PopPending(pending);
      var next := pending[|pending| - 1];
      pending := pending[..|pending| - 1];
      ghost var rest := pending;
      assert next.entries[0..] == next.entries;
      for i := 0 to |next.entries|
        invariant Walking(root, files, pending, next.entries[i..], next.dir)
        invariant PendingSize(pending) + Size(next.entries[i..]) <= PendingSize(rest) + Size(next.entries)
      {
        var entry := next.entries[i];
        NextEntry(next.entries, i, next.dir);
        if entry.node.Symlink? {
          return Refused;
        } else if entry.node.Directory? {
          WalkDirectory(root, files, pending, next.entries, i, next.dir);
          PushPending(pending, Pending(next.dir + [entry.name], entry.node.entries));
          pending := pending + [Pending(next.dir + [entry.name], entry.node.entries)];
        } else {
          WalkFile(root, files, pending, next.entries, i, next.dir);
          if entry.node.File? {
            files := files + [next.dir + [entry.name]];
          }
        }
      }
      assert next.entries[|next.entries|..] == [];
      WalkPause(root, files, pending, next.dir);
    }
    r := Files(files);
  }

  // ----- the walk returns exactly the regular files, each once -----

  ghost function FilesOf(e: Entry, prefix: Path): seq<Path> {
    match e.node
    case File(_) => [prefix + [e.name]]
    case Directory(sub) => FilesUnder(sub, prefix + [e.name])
    case _ => []
  }

  ghost predicate Starts(p: Path, prefix: Path, name: Name) {
    prefix < p && p[|prefix|] == name
  }

  lemma {:induction false} FilesShareThePrefix(entries: seq<Entry>, prefix: Path, p: Path)
    requires p in FilesUnder(entries, prefix)
    ensures exists i :: 0 <= i < |entries| && Starts(p, prefix, entries[i].name)
    decreases entries, 1
  {
    if p in FilesUnder(entries[1..], prefix) {
      FilesShareThePrefix(entries[1..], prefix, p);
      var i :| 0 <= i < |entries[1..]| && Starts(p, prefix, entries[1..][i].name);
      assert Starts(p, prefix, entries[i + 1].name);
    } else {
      assert p in FilesOf(entries[0], prefix);
      EntryFilesStart(entries, prefix, p);
    }
  }

  lemma {:induction false} EntryFilesStart(entries: seq<Entry>, prefix: Path, p: Path)
    requires entries != [] && p in FilesOf(entries[0], prefix)
    ensures Starts(p, prefix, entries[0].name)
    decreases entries, 0
  {
    var e := entries[0];
    if e.node.Directory? {
      FilesShareThePrefix(e.node.entries, prefix + [e.name], p);
      assert (prefix + [e.name]) < p;
      assert p[..|prefix| + 1] == prefix + [e.name];
    }
  }

  lemma OtherNamesElsewhere(entries: seq<Entry>, prefix: Path, p: Path)
    requires WellFormed(entries) && entries != [] && Starts(p, prefix, entries[0].name)
    ensures p !in FilesUnder(entries[1..], prefix)
  {
    forall i | 0 <= i < |entries[1..]| ensures !Starts(p, prefix, entries[1..][i].name) {
      assert entries[i + 1].name != entries[0].name;
    }
    if p in FilesUnder(entries[1..], prefix) {
      FilesShareThePrefix(entries[1..], prefix, p);
      assert false;
    }
  }

  lemma WellFormedParts(entries: seq<Entry>)
    requires WellFormed(entries) && entries != []
    ensures WellFormed(entries[1..]) && ValidName(entries[0].name)
    ensures entries[0].node.Directory? ==> WellFormed(entries[0].node.entries)
  {}

  lemma NamedElsewhere(entries: seq<Entry>, prefix: Path, q: Path)
    requires entries != [] && q != [] && entries[0].name != q[0]
    ensures prefix + q in FilesUnder(entries, prefix) <==> prefix + q in FilesUnder(entries[1..], prefix)
  {
    var e, p := entries[0], prefix + q;
    assert FilesUnder(entries, prefix) == FilesOf(e, prefix) + FilesUnder(entries[1..], prefix);
    assert p[|prefix|] == q[0];
    if p in FilesOf(e, prefix) { EntryFilesStart(entries, prefix, p); }
  }

  lemma NamedFirst(entries: seq<Entry>, prefix: Path, q: Path)
    requires WellFormed(entries) && entries != [] && q != [] && entries[0].name == q[0]
    ensures prefix + q in FilesUnder(entries, prefix) <==> prefix + q in FilesOf(entries[0], prefix)
  {
    var p := prefix + q;
    assert FilesUnder(entries, prefix) == FilesOf(entries[0], prefix) + FilesUnder(entries[1..], prefix);
    assert p[..|prefix|] == prefix && p[|prefix|] == q[0];
    OtherNamesElsewhere(entries, prefix, p);
  }

  lemma ListedItself(e: Entry, prefix: Path, q: Path)
    requires q == [e.name]
    ensures prefix + q in FilesOf(e, prefix) <==> e.node.File?
  {
    if e.node.Directory? && prefix + q in FilesOf(e, prefix) {
      FilesShareThePrefix(e.node.entries, prefix + q, prefix + q);
    }
  }

  /** A path is listed exactly when looking it up leads to a regular file. */
  lemma {:induction false} ListedIffFile(entries: seq<Entry>, prefix: Path, q: Path)
    requires WellFormed(entries) && q != []
    ensures prefix + q in FilesUnder(entries, prefix) <==> Lookup(entries, q).File?
    decreases entries
  {
    if entries == [] {
    } else {
      hide FilesUnder;
      var e := entries[0];
      WellFormedParts(entries);
      if e.name != q[0] {
        NamedElsewhere(entries, prefix, q);
        ListedIffFile(entries[1..], prefix, q);
      } else {
        NamedFirst(entries, prefix, q);
        if |q| == 1 {
          ListedItself(e, prefix, q);
        } else {
          NamedBelow(e, prefix, q);
          if e.node.Directory? { ListedIffFile(e.node.entries, prefix + [e.name], q[1..]); }
        }
      }
    }
  }

  /** What is listed behind a name is what the directory of that name lists. */
  lemma NamedBelow(e: Entry, prefix: Path, q: Path)
    requires |q| > 1 && e.name == q[0]
    ensures prefix + q in FilesOf(e, prefix) <==>
            e.node.Directory? && (prefix + [e.name]) + q[1..] in FilesUnder(e.node.entries, prefix + [e.name])
  {
    hide FilesUnder;
    assert prefix + q == (prefix + [e.name]) + q[1..];
    assert |prefix + q| > |prefix + [e.name]|;
  }

  /** No path is listed twice. */
  lemma {:induction false} ListedOnce(entries: seq<Entry>, prefix: Path)
    requires WellFormed(entries)
    ensures Distinct(FilesUnder(entries, prefix))
    decreases entries
  {
    if entries == [] {
    } else {
      var e := entries[0];
      WellFormedParts(entries);
      ListedOnce(entries[1..], prefix);
      if e.node.Directory? { ListedOnce(e.node.entries, prefix + [e.name]); }
      forall p | p in FilesOf(e, prefix) ensures p !in FilesUnder(entries[1..], prefix) {
        EntryFilesStart(entries, prefix, p);
        OtherNamesElsewhere(entries, prefix, p);
      }
      hide FilesUnder;
      DistinctConcat(FilesOf(e, prefix), FilesUnder(entries[1..], prefix));
    }
  }

  lemma DistinctConcat<T(!new)>(a: seq<T>, b: seq<T>)
    requires Distinct(a) && Distinct(b) && forall x :: x in a ==> x !in b
    ensures Distinct(a + b)
  {
    forall i, j | 0 <= i < j < |a + b| ensures (a + b)[i] != (a + b)[j] {
      assert i < |a| ==> (a + b)[i] in a;
      assert j >= |a| ==> (a + b)[j] in b;
    }
  }
}
