/** The identity of a suite authored as case directories: the canonical stream its digest is
    taken over. */
module SuiteDigest {
  import opened Wrappers
  import opened Sorting
  import opened CaseTree
  import opened SuiteStream

  /** The regime tag `trg-eval-case-directories-v1`, as bytes. */
  const TAG: seq<Byte> := [
    116, 114, 103, 45, 101, 118, 97, 108, 45, 99, 97, 115, 101, 45, 100, 105, 114, 101, 99, 116,
    111, 114, 105, 101, 115, 45, 118, 49]

  const PROMPT_MD: Name := [112, 114, 111, 109, 112, 116, 46, 109, 100]
  const CASE_JSON: Name := [99, 97, 115, 101, 46, 106, 115, 111, 110]
  const GRADERS: Name := [103, 114, 97, 100, 101, 114, 115]

  function Bytewise(): seq<Byte> -> seq<nat> {
    (s: seq<Byte>) => s
  }

  // ----- which directories are cases -----

  /** A directory with one of the markers of a case. The directory and its markers may be links. */
  predicate LooksLikeCase(n: Node) {
    var d := Follow(n);
    && d.Directory?
    && (Follow(Lookup(d.entries, [PROMPT_MD])).File? || Follow(Lookup(d.entries, [CASE_JSON])).File?
        || Follow(Lookup(d.entries, [GRADERS])).Directory?)
  }

  predicate IsCase(evals: seq<Entry>, id: Name) {
    LooksLikeCase(Lookup(evals, [id]))
  }

  lemma {:induction false} LookupEntry(entries: seq<Entry>, i: nat)
    requires WellFormed(entries) && i < |entries|
    ensures Lookup(entries, [entries[i].name]) == entries[i].node
  {
    if i == 0 {
    } else {
      WellFormedParts(entries);
      LookupEntry(entries[1..], i - 1);
    }
  }

  lemma {:induction false} LookupFinds(entries: seq<Entry>, name: Name)
    requires !Lookup(entries, [name]).Special?
    ensures exists i :: 0 <= i < |entries| && entries[i].name == name && entries[i].node == Lookup(entries, [name])
  {
    if entries[0].name != name {
      LookupFinds(entries[1..], name);
      var i :| 0 <= i < |entries[1..]| && entries[1..][i].name == name && entries[1..][i].node == Lookup(entries, [name]);
      assert entries[i + 1].name == name && entries[i + 1].node == Lookup(entries, [name]);
    } else {
      assert entries[0].node == Lookup(entries, [name]);
    }
  }

  ghost predicate CaseBefore(evals: seq<Entry>, i: nat, id: Name)
    requires i <= |evals|
  {
    exists k :: 0 <= k < i && evals[k].name == id && LooksLikeCase(evals[k].node)
  }

  lemma CaseBeforeNext(evals: seq<Entry>, i: nat, id: Name)
    requires i < |evals|
    ensures CaseBefore(evals, i + 1, id) <==> CaseBefore(evals, i, id) || (evals[i].name == id && LooksLikeCase(evals[i].node))
  {}

  lemma NamedOnce(evals: seq<Entry>, i: nat)
    requires WellFormed(evals) && i < |evals|
    ensures !CaseBefore(evals, i, evals[i].name)
  {}

  lemma CaseBeforeAll(evals: seq<Entry>, id: Name)
    requires WellFormed(evals)
    ensures CaseBefore(evals, |evals|, id) <==> IsCase(evals, id)
  {
    if CaseBefore(evals, |evals|, id) {
      var k :| 0 <= k < |evals| && evals[k].name == id && LooksLikeCase(evals[k].node);
      LookupEntry(evals, k);
    }
    if IsCase(evals, id) {
      LookupFinds(evals, id);
    }
  }

  /** The names of the directories that look like cases, sorted. */
  method DiscoverCaseDirectories(evals: seq<Entry>) returns (ids: seq<Name>)
    requires WellFormed(evals)
    ensures StrictlySorted(Bytewise(), ids)
    ensures forall id :: id in ids <==> IsCase(evals, id)
  {
    var found: seq<Name> := [];
    for i := 0 to |evals|
      invariant Distinct(found)
      invariant forall id :: id in found <==> CaseBefore(evals, i, id)
    {
      hide CaseBefore, WellFormed, LooksLikeCase;
      NamedOnce(evals, i);
      forall id
        ensures CaseBefore(evals, i + 1, id) <==>
          CaseBefore(evals, i, id) || (evals[i].name == id && LooksLikeCase(evals[i].node))
      {
        CaseBeforeNext(evals, i, id);
      }
      if LooksLikeCase(evals[i].node) {
        found := found + [evals[i].name];
      }
    }
    ids := Sort(ByKey(Bytewise()), found);
    SortIsStrict(Bytewise(), found);
    forall id ensures id in ids <==> IsCase(evals, id) {
      CaseBeforeAll(evals, id);
    }
  }

  // ----- what the stream says -----

  function CaseEntries(evals: seq<Entry>, id: Name): seq<Entry> {
    var n := Follow(Lookup(evals, [id]));
    if n.Directory? then n.entries else []
  }

  lemma CaseIsWellFormed(evals: seq<Entry>, id: Name)
    requires WellFormed(evals)
    ensures WellFormed(CaseEntries(evals, id))
    ensures Follow(Lookup(evals, [id])).Directory? ==> ValidName(id)
  {
    if Follow(Lookup(evals, [id])).Directory? {
      LookupFinds(evals, id);
      FollowedIsWellFormed(Lookup(evals, [id]));
    }
  }

  lemma {:induction false} FollowedIsWellFormed(n: Node)
    requires WellFormedNode(n)
    ensures WellFormedNode(Follow(n))
  {
    if n.Symlink? { FollowedIsWellFormed(n.target); }
  }

  /** The suite holds these bytes under this case at this slash-separated path. */
  predicate Holds(evals: seq<Entry>, r: Record) {
    IsCase(evals, r.id) && Lookup(CaseEntries(evals, r.id), Split(r.relative)) == File(r.bytes)
  }

  /** Reading a file by its slash-separated path. */
  function BytesAt(entries: seq<Entry>, relative: seq<Byte>): seq<Byte> {
    var n := Lookup(entries, Split(relative));
    if n.File? then n.bytes else []
  }

  /** Cases in order of id and, within a case, files in order of path. */
  function OrderKey(): Record -> seq<nat> {
    (r: Record) => r.id + [NUL] + r.relative
  }

  /** The records of one list are exactly the files of the suite, in canonical order. */
  ghost predicate Canonical(evals: seq<Entry>, records: seq<Record>) {
    && StrictlySorted(OrderKey(), records)
    && (forall r :: r in records <==> Holds(evals, r))
    && (forall i :: 0 <= i < |records| ==> ValidRecord(records[i]))
  }

  /** One suite has one canonical list, and equal suites have equal ones, whatever order their
      directories were listed in. */
  lemma CanonicalIsUnique(evals: seq<Entry>, records: seq<Record>, evals': seq<Entry>, records': seq<Record>)
    requires Canonical(evals, records) && Canonical(evals', records')
    ensures records == records' <==> forall r :: Holds(evals, r) <==> Holds(evals', r)
  {
    if forall r :: Holds(evals, r) <==> Holds(evals', r) {
      hide Holds, OrderKey;
      assert forall r :: r in records <==> Holds(evals, r);
      assert forall r :: r in records' <==> Holds(evals', r);
      StrictlySortedIsUnique(OrderKey(), records, records');
    }
    if records == records' {
      hide Holds;
      assert forall r :: Holds(evals, r) <==> r in records;
      assert forall r :: Holds(evals', r) <==> r in records';
    }
  }

  /** Two suites feed the hash the same bytes exactly when they hold the same files. */
  lemma StreamDecidesTheSuite(evals: seq<Entry>, records: seq<Record>, evals': seq<Entry>, records': seq<Record>)
    requires Canonical(evals, records) && Canonical(evals', records')
    ensures TAG + EncodeAll(records) == TAG + EncodeAll(records') <==> forall r :: Holds(evals, r) <==> Holds(evals', r)
  {
    StreamRoundTrip(records);
    StreamRoundTrip(records');
    CanonicalIsUnique(evals, records, evals', records');
    hide Decode, EncodeAll, Holds, Canonical;
    if TAG + EncodeAll(records) == TAG + EncodeAll(records') {
      assert EncodeAll(records) == (TAG + EncodeAll(records))[|TAG|..]
        == (TAG + EncodeAll(records'))[|TAG|..] == EncodeAll(records');
    }
  }

  // ----- canonical order -----

  lemma {:induction false} PrefixedLess(a: seq<Byte>, x: seq<Byte>, y: seq<Byte>)
    requires LexLess(x, y)
    ensures LexLess(a + x, a + y)
  {
    if a == [] {
      assert a + x == x && a + y == y;
    } else {
      PrefixedLess(a[1..], x, y);
      assert (a + x)[1..] == a[1..] + x && (a + y)[1..] == a[1..] + y;
    }
  }

  lemma {:induction false} SmallerIdFirst(a: seq<Byte>, x: seq<Byte>, b: seq<Byte>, y: seq<Byte>)
    requires LexLess(a, b) && NUL !in b
    ensures LexLess(a + [NUL] + x, b + [NUL] + y)
  {
    var s, t := a + [NUL] + x, b + [NUL] + y;
    if a == [] {
      assert t[0] == b[0] && b[0] in b && s[0] == NUL;
    } else if a[0] == b[0] {
      SmallerIdFirst(a[1..], x, b[1..], y);
      assert s[1..] == a[1..] + [NUL] + x && t[1..] == b[1..] + [NUL] + y;
    }
  }

  lemma OrderOfRecords(r: Record, q: Record)
    requires NUL !in q.id
    requires LexLess(r.id, q.id) || (r.id == q.id && LexLess(r.relative, q.relative))
    ensures LexLess(OrderKey()(r), OrderKey()(q))
  {
    if LexLess(r.id, q.id) {
      SmallerIdFirst(r.id, r.relative, q.id, q.relative);
    } else {
      PrefixedLess(r.id + [NUL], r.relative, q.relative);
    }
  }

  // ----- feeding the hash -----

  lemma {:induction false} FilePathIsPlain(entries: seq<Entry>, path: Path)
    requires WellFormed(entries) && Lookup(entries, path).File?
    ensures path != [] && forall i :: 0 <= i < |path| ==> SLASH !in path[i] && NUL !in path[i]
    decreases entries
  {
    WellFormedParts(entries);
    if entries[0].name != path[0] {
      FilePathIsPlain(entries[1..], path);
    } else if |path| > 1 {
      FilePathIsPlain(entries[0].node.entries, path[1..]);
      forall i | 0 <= i < |path| ensures SLASH !in path[i] && NUL !in path[i] {
        assert i > 0 ==> path[i] == path[1..][i - 1];
      }
    }
  }

  lemma {:induction false} SlashedIsPlain(path: Path)
    requires forall i :: 0 <= i < |path| ==> NUL !in path[i]
    ensures NUL !in Slashed(path)
  {
    if |path| <= 1 {
    } else {
      SlashedIsPlain(path[1..]);
    }
  }

  ghost predicate IsFile(entries: seq<Entry>, relative: seq<Byte>) {
    Lookup(entries, Split(relative)).File?
  }

  lemma SlashedFile(entries: seq<Entry>, path: Path)
    requires WellFormed(entries) && Lookup(entries, path).File?
    ensures IsFile(entries, Slashed(path)) && Split(Slashed(path)) == path && NUL !in Slashed(path)
  {
    FilePathIsPlain(entries, path);
    SplitSlashed(path);
    SlashedIsPlain(path);
  }

  lemma CollectedIff(entries: seq<Entry>, paths: seq<Path>)
    requires WellFormed(entries) && multiset(paths) == multiset(FilesUnder(entries, []))
    ensures Distinct(paths) && forall p :: p in paths <==> Lookup(entries, p).File?
  {
    hide FilesUnder;
    var all := FilesUnder(entries, []);
    ListedOnce(entries, []);
    forall x ensures multiset(paths)[x] <= 1 { DistinctIsSimpleMultiset(all, x); }
    SimpleMultisetIsDistinct(paths);
    forall p ensures p in paths <==> Lookup(entries, p).File? {
      assert p in paths <==> p in multiset(paths);
      assert p in all <==> p in multiset(all);
      if p != [] {
        ListedIffFile(entries, [], p);
        assert [] + p == p;
      } else if p in all {
        FilesShareThePrefix(entries, [], p);
      }
    }
  }

  function SlashedAll(paths: seq<Path>): (r: seq<seq<Byte>>)
    ensures |r| == |paths| && forall i :: 0 <= i < |r| ==> r[i] == Slashed(paths[i])
  {
    seq(|paths|, i requires 0 <= i < |paths| => Slashed(paths[i]))
  }

  lemma SlashedAllFiles(entries: seq<Entry>, paths: seq<Path>)
    requires WellFormed(entries) && Distinct(paths) && forall p :: p in paths <==> Lookup(entries, p).File?
    ensures Distinct(SlashedAll(paths))
    ensures forall s :: s in SlashedAll(paths) <==> IsFile(entries, s)
    ensures forall s :: s in SlashedAll(paths) ==> NUL !in s
  {
    var all := SlashedAll(paths);
    forall i | 0 <= i < |all| ensures Split(all[i]) == paths[i] && NUL !in all[i] && IsFile(entries, all[i]) {
      assert paths[i] in paths;
      SlashedFile(entries, paths[i]);
    }
    forall i, j | 0 <= i < j < |all| ensures all[i] != all[j] {
      assert Split(all[i]) != Split(all[j]);
    }
    forall s | IsFile(entries, s) ensures s in all {
      assert Split(s) in paths;
      var i :| 0 <= i < |paths| && paths[i] == Split(s);
      SlashedSplit(s);
      assert all[i] == s;
    }
  }

  datatype Relatives = Refused | Sorted(paths: seq<seq<Byte>>)

  /** The relative paths of one case, as sorted strings. */
  method SortedRelatives(entries: seq<Entry>) returns (r: Relatives)
    requires WellFormed(entries)
    ensures r.Refused? <==> HasSymlink(entries)
    ensures r.Sorted? ==> StrictlySorted(Bytewise(), r.paths)
    ensures r.Sorted? ==> forall s :: s in r.paths <==> IsFile(entries, s)
    ensures r.Sorted? ==> forall s :: s in r.paths ==> NUL !in s
  {
    var collected := CollectCaseFiles(entries);
    if collected.Refused? {
      return Relatives.Refused;
    }
    hide HasSymlink, FilesUnder, IsFile, WellFormed;
    CollectedIff(entries, collected.paths);
    SlashedAllFiles(entries, collected.paths);
    var all := SlashedAll(collected.paths);
    SortIsStrict(Bytewise(), all);
    r := Sorted(Sort(ByKey(Bytewise()), all));
  }

  /** The stream so far says exactly the files of the cases before `i` and, of the case at `i`,
      those before `j`. */
  ghost predicate Fed(evals: seq<Entry>, ids: seq<Name>, i: nat, done: seq<seq<Byte>>, stream: seq<Byte>, records: seq<Record>)
    requires i <= |ids|
  {
    && stream == TAG + EncodeAll(records)
    && StrictlySorted(OrderKey(), records)
    && (forall k :: 0 <= k < |records| ==> ValidRecord(records[k]))
    && (forall r :: r in records <==>
          Holds(evals, r) && (r.id in ids[..i] || (i < |ids| && r.id == ids[i] && r.relative in done)))
  }

  lemma AppendRecord(records: seq<Record>, r: Record)
    requires StrictlySorted(OrderKey(), records)
    requires forall q :: q in records ==> LexLess(OrderKey()(q), OrderKey()(r))
    ensures StrictlySorted(OrderKey(), records + [r])
    ensures EncodeAll(records + [r]) == EncodeAll(records) + Encode(r)
  {}

  lemma OneFileAPath(evals: seq<Entry>, r: Record)
    requires Holds(evals, r)
    ensures forall q :: Holds(evals, q) && q.id == r.id && q.relative == r.relative ==> q == r
  {}

  lemma FedBefore(evals: seq<Entry>, ids: seq<Name>, i: nat, paths: seq<seq<Byte>>, j: nat, q: Record, r: Record)
    requires StrictlySorted(Bytewise(), ids) && StrictlySorted(Bytewise(), paths)
    requires i < |ids| && j < |paths| && r.id == ids[i] && r.relative == paths[j] && NUL !in r.id
    requires q.id in ids[..i] || (q.id == ids[i] && q.relative in paths[..j])
    ensures LexLess(OrderKey()(q), OrderKey()(r))
  {
    if q.id in ids[..i] {
      var k :| 0 <= k < i && ids[k] == q.id;
      assert LexLess(Bytewise()(ids[k]), Bytewise()(ids[i]));
    } else {
      var k :| 0 <= k < j && paths[k] == q.relative;
      assert LexLess(Bytewise()(paths[k]), Bytewise()(paths[j]));
    }
    OrderOfRecords(q, r);
  }

  lemma FeedRecord(evals: seq<Entry>, ids: seq<Name>, i: nat, paths: seq<seq<Byte>>, j: nat, stream: seq<Byte>,
                   records: seq<Record>, r: Record)
    requires StrictlySorted(Bytewise(), ids) && StrictlySorted(Bytewise(), paths)
    requires i < |ids| && j < |paths| && r.id == ids[i] && r.relative == paths[j]
    requires ValidRecord(r) && Holds(evals, r)
    requires Fed(evals, ids, i, paths[..j], stream, records)
    ensures Fed(evals, ids, i, paths[..j + 1], stream + Encode(r), records + [r])
  {
    hide Holds, LexLess, Encode, EncodeAll, OrderKey, Bytewise;
    OneFileAPath(evals, r);
    forall q | q in records ensures LexLess(OrderKey()(q), OrderKey()(r)) {
      FedBefore(evals, ids, i, paths, j, q, r);
    }
    AppendRecord(records, r);
    hide StrictlySorted, ValidRecord;
    assert TAG + EncodeAll(records) + Encode(r) == TAG + (EncodeAll(records) + Encode(r));
    assert paths[..j + 1] == paths[..j] + [paths[j]];
  }

  lemma NextCase(evals: seq<Entry>, ids: seq<Name>, i: nat, paths: seq<seq<Byte>>, stream: seq<Byte>, records: seq<Record>)
    requires i < |ids| && Fed(evals, ids, i, paths, stream, records)
    requires forall s :: IsFile(CaseEntries(evals, ids[i]), s) ==> s in paths
    ensures Fed(evals, ids, i + 1, [], stream, records)
  {}

  /** The bytes of the suite digest, or nothing when some case contains a symlink. The ghost
      result is the list of files the bytes say. */
  method CanonicalStream(evals: seq<Entry>, ids: seq<Name>) returns (stream: Option<seq<Byte>>, ghost records: seq<Record>)
    requires WellFormed(evals) && StrictlySorted(Bytewise(), ids) && forall id :: id in ids <==> IsCase(evals, id)
    ensures stream.None? <==> exists id :: id in ids && HasSymlink(CaseEntries(evals, id))
    ensures stream.Some? ==> Canonical(evals, records) && stream.value == TAG + EncodeAll(records)
  {
    hide HasSymlink, WellFormed, StrictlySorted, Bytewise, CaseEntries;
    var hashed := TAG;
    records := [];
    NothingFed(evals, ids);
    for i := 0 to |ids|
      invariant Fed(evals, ids, i, [], hashed, records)
      invariant forall k :: 0 <= k < i ==> !HasSymlink(CaseEntries(evals, ids[k]))
    {
      var entries := CaseEntries(evals, ids[i]);
      assert ids[i] in ids;
      IdIsPlain(evals, ids[i]);
      CaseIsWellFormed(evals, ids[i]);
      var relatives := SortedRelatives(entries);
      if relatives.Refused? {
        return None, [];
      }
      var paths := relatives.paths;
      for j := 0 to |paths|
        invariant Fed(evals, ids, i, paths[..j], hashed, records)
      {
        hide Fed, IsCase, IsFile;
        assert paths[j] in paths;
        var bytes := BytesAt(entries, paths[j]);
        var r := Record(ids[i], paths[j], bytes);
        RecordHolds(evals, r);
        FeedRecord(evals, ids, i, paths, j, hashed, records, r);
        hashed := hashed + (ids[i] + [SLASH] + paths[j] + [NUL] + Decimal(|bytes|) + [NUL] + bytes);
        records := records + [r];
      }
      assert paths[..|paths|] == paths;
      NextCase(evals, ids, i, paths, hashed, records);
    }
    EverythingFed(evals, ids, hashed, records);
    stream := Some(hashed);
  }

  lemma NothingFed(evals: seq<Entry>, ids: seq<Name>)
    ensures Fed(evals, ids, 0, [], TAG, [])
  {}

  lemma IdIsPlain(evals: seq<Entry>, id: Name)
    requires WellFormed(evals) && IsCase(evals, id)
    ensures NUL !in id && SLASH !in id
  {
    CaseIsWellFormed(evals, id);
  }

  lemma RecordHolds(evals: seq<Entry>, r: Record)
    requires IsCase(evals, r.id) && IsFile(CaseEntries(evals, r.id), r.relative)
    requires r.bytes == BytesAt(CaseEntries(evals, r.id), r.relative)
    ensures Holds(evals, r)
  {}

  lemma EverythingFed(evals: seq<Entry>, ids: seq<Name>, stream: seq<Byte>, records: seq<Record>)
    requires Fed(evals, ids, |ids|, [], stream, records) && forall id :: id in ids <==> IsCase(evals, id)
    ensures Canonical(evals, records) && stream == TAG + EncodeAll(records)
  {}

  // ----- names, letter by letter -----

  /** A directory is a case by a file `prompt.md` or `case.json`, or by a directory `graders`. */
  lemma MarkersOfACase(n: Node)
    ensures LooksLikeCase(n) <==>
      && Follow(n).Directory?
      && (Follow(Lookup(Follow(n).entries, [Bytes("prompt.md")])).File?
          || Follow(Lookup(Follow(n).entries, [Bytes("case.json")])).File?
          || Follow(Lookup(Follow(n).entries, [Bytes("graders")])).Directory?)
  {
    assert PROMPT_MD == Bytes("prompt.md") && CASE_JSON == Bytes("case.json") && GRADERS == Bytes("graders");
  }

  /** The stream begins with the name of its regime. */
  lemma TagInFull()
    ensures TAG == Bytes("trg-eval-case-directories-v1")
  {}
}
