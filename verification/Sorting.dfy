/** Orders and sorting, shared by every component that sorts before it publishes.
    `Sort` stands for the standard library's stable sort. */
module Sorting {

  ghost predicate TotalPreorder<T(!new)>(leq: (T, T) -> bool) {
    && (forall x, y :: leq(x, y) || leq(y, x))
    && (forall x, y, z :: leq(x, y) && leq(y, z) ==> leq(x, z))
  }

  ghost predicate SortedBy<T(!new)>(leq: (T, T) -> bool, s: seq<T>) {
    forall i, j :: 0 <= i < j < |s| ==> leq(s[i], s[j])
  }

  ghost predicate Distinct<T(!new)>(s: seq<T>) {
    forall i, j :: 0 <= i < j < |s| ==> s[i] != s[j]
  }

  function Insert<T>(leq: (T, T) -> bool, x: T, s: seq<T>): (r: seq<T>) {
    if s == [] then [x]
    else if leq(x, s[0]) then [x] + s
    else [s[0]] + Insert(leq, x, s[1..])
  }

  function Sort<T>(leq: (T, T) -> bool, s: seq<T>): (r: seq<T>) {
    if s == [] then [] else Insert(leq, s[0], Sort(leq, s[1..]))
  }

  lemma {:induction false} InsertKeepsElements<T>(leq: (T, T) -> bool, x: T, s: seq<T>)
    ensures multiset(Insert(leq, x, s)) == multiset(s) + multiset{x}
    ensures |Insert(leq, x, s)| == |s| + 1
  {
    if s == [] {
    } else {
      assert s == [s[0]] + s[1..];
      InsertKeepsElements(leq, x, s[1..]);
    }
  }

  lemma {:induction false} SortKeepsElements<T>(leq: (T, T) -> bool, s: seq<T>)
    ensures multiset(Sort(leq, s)) == multiset(s)
    ensures |Sort(leq, s)| == |s|
  {
    if s == [] {
    } else {
      assert s == [s[0]] + s[1..];
      SortKeepsElements(leq, s[1..]);
      InsertKeepsElements(leq, s[0], Sort(leq, s[1..]));
    }
  }

  lemma {:induction false} SortKeepsMembers<T>(leq: (T, T) -> bool, s: seq<T>)
    ensures |Sort(leq, s)| == |s|
    ensures forall x :: x in Sort(leq, s) <==> x in s
  {
    SortKeepsElements(leq, s);
    forall x ensures x in Sort(leq, s) <==> x in s {
      assert x in Sort(leq, s) <==> x in multiset(Sort(leq, s));
      assert x in s <==> x in multiset(s);
    }
  }

  lemma {:induction false} InsertSorts<T(!new)>(leq: (T, T) -> bool, x: T, s: seq<T>)
    requires TotalPreorder(leq) && SortedBy(leq, s)
    ensures SortedBy(leq, Insert(leq, x, s))
  {
    if s != [] && !leq(x, s[0]) {
      InsertSorts(leq, x, s[1..]);
      var rest := Insert(leq, x, s[1..]);
      InsertKeepsElements(leq, x, s[1..]);
      forall j | 0 <= j < |rest| ensures leq(s[0], rest[j]) {
        assert rest[j] in multiset(rest);
        assert rest[j] == x || rest[j] in s[1..];
      }
    } else if s != [] {
      forall j | 0 <= j < |s| ensures leq(x, s[j]) { }
    }
  }

  lemma {:induction false} SortSorts<T(!new)>(leq: (T, T) -> bool, s: seq<T>)
    requires TotalPreorder(leq)
    ensures SortedBy(leq, Sort(leq, s))
  {
    if s == [] {
    } else {
      SortSorts(leq, s[1..]);
      InsertSorts(leq, s[0], Sort(leq, s[1..]));
    }
  }

  lemma DistinctIsSimpleMultiset<T(!new)>(s: seq<T>, x: T)
    requires Distinct(s)
    ensures multiset(s)[x] == if x in s then 1 else 0
  {
    if x in s {
      var i :| 0 <= i < |s| && s[i] == x;
      assert s == s[..i] + [x] + s[i + 1..];
      assert x !in s[..i] && x !in s[i + 1..];
    }
  }

  lemma SimpleMultisetIsDistinct<T(!new)>(s: seq<T>)
    requires forall x :: multiset(s)[x] <= 1
    ensures Distinct(s)
  {
    forall i, j | 0 <= i < j < |s| ensures s[i] != s[j] {
      assert s == s[..j] + s[j..];
      assert s[i] in s[..j] && s[j] in s[j..];
      assert multiset(s)[s[i]] <= 1;
    }
  }

  lemma SortKeepsDistinct<T(!new)>(leq: (T, T) -> bool, s: seq<T>)
    requires Distinct(s)
    ensures Distinct(Sort(leq, s))
  {
    SortKeepsElements(leq, s);
    forall x ensures multiset(Sort(leq, s))[x] <= 1 { DistinctIsSimpleMultiset(s, x); }
    SimpleMultisetIsDistinct(Sort(leq, s));
  }

  lemma HeadIsLeast<T(!new)>(leq: (T, T) -> bool, a: seq<T>, b: seq<T>)
    requires a != [] && b != []
    requires SortedBy(leq, a) && SortedBy(leq, b) && TotalPreorder(leq)
    requires multiset(a) == multiset(b)
    ensures leq(a[0], b[0])
  {
    assert b[0] in multiset(a);
    var i :| 0 <= i < |a| && a[i] == b[0];
    assert leq(a[0], a[0]);
  }

  ghost predicate Separates<T(!new)>(leq: (T, T) -> bool, u: set<T>) {
    forall x, y :: x in u && y in u && leq(x, y) && leq(y, x) ==> x == y
  }

  lemma DropHead<T>(a: seq<T>)
    requires a != []
    ensures multiset(a[1..]) == multiset(a) - multiset{a[0]}
  {
    assert a == [a[0]] + a[1..];
  }

  /** Two sorted arrangements of the same elements are the same list, once the order tells
      every two of the elements apart. */
  lemma {:induction false} SortedIsUnique<T(!new)>(leq: (T, T) -> bool, a: seq<T>, b: seq<T>, u: set<T>)
    requires TotalPreorder(leq) && Separates(leq, u)
    requires SortedBy(leq, a) && SortedBy(leq, b)
    requires multiset(a) == multiset(b)
    requires forall i :: 0 <= i < |a| ==> a[i] in u
    ensures a == b
  {
    if a == [] {
      assert |multiset(b)| == 0;
    } else {
      assert |multiset(b)| == |a|;
      HeadIsLeast(leq, a, b);
      HeadIsLeast(leq, b, a);
      assert b[0] in multiset(a);
      assert b[0] in u;
      DropHead(a);
      DropHead(b);
      SortedIsUnique(leq, a[1..], b[1..], u);
      assert a == [a[0]] + a[1..] && b == [b[0]] + b[1..];
    }
  }

  // ----- lexicographic order, as slices and strings compare -----

  predicate LexLess(a: seq<nat>, b: seq<nat>) {
    if b == [] then false
    else if a == [] then true
    else a[0] < b[0] || (a[0] == b[0] && LexLess(a[1..], b[1..]))
  }

  predicate LexLeq(a: seq<nat>, b: seq<nat>) {
    a == b || LexLess(a, b)
  }

  lemma {:induction false} LexConnected(a: seq<nat>, b: seq<nat>)
    ensures LexLess(a, b) || a == b || LexLess(b, a)
    ensures !(LexLess(a, b) && LexLess(b, a))
    ensures a == b ==> !LexLess(a, b)
  {
    if a != [] && b != [] {
      LexConnected(a[1..], b[1..]);
      if a[0] == b[0] && a[1..] == b[1..] {
        assert a == [a[0]] + a[1..] && b == [b[0]] + b[1..];
      }
    }
  }

  lemma {:induction false} LexTransitive(a: seq<nat>, b: seq<nat>, c: seq<nat>)
    requires LexLess(a, b) && LexLess(b, c)
    ensures LexLess(a, c)
  {
    if a != [] && a[0] == b[0] == c[0] {
      LexTransitive(a[1..], b[1..], c[1..]);
    }
  }

  function ByKey<T>(key: T -> seq<nat>): (T, T) -> bool {
    (x, y) => LexLeq(key(x), key(y))
  }

  lemma ByKeyIsPreorder<T(!new)>(key: T -> seq<nat>)
    ensures TotalPreorder(ByKey(key))
  {
    var leq := ByKey(key);
    forall x, y ensures leq(x, y) || leq(y, x) { LexConnected(key(x), key(y)); }
    forall x, y, z | leq(x, y) && leq(y, z) ensures leq(x, z) {
      if key(x) != key(y) && key(y) != key(z) { LexTransitive(key(x), key(y), key(z)); }
    }
  }

  ghost predicate StrictlySorted<T(!new)>(key: T -> seq<nat>, s: seq<T>) {
    forall i, j :: 0 <= i < j < |s| ==> LexLess(key(s[i]), key(s[j]))
  }

  /** Drops each element whose key equals the key of the element kept before it. */
  function DedupByKey<T>(key: T -> seq<nat>, s: seq<T>): (r: seq<T>)
    decreases |s|
  {
    if |s| <= 1 then s
    else if key(s[0]) == key(s[1]) then DedupByKey(key, [s[0]] + s[2..])
    else [s[0]] + DedupByKey(key, s[1..])
  }

  lemma {:induction false} DedupKeepsMembers<T(!new)>(key: T -> seq<nat>, s: seq<T>)
    ensures s != [] ==> DedupByKey(key, s) != [] && DedupByKey(key, s)[0] == s[0]
    ensures forall x :: x in DedupByKey(key, s) ==> x in s
    decreases |s|
  {
    if |s| <= 1 {
    } else {
      DedupKeepsMembers(key, if key(s[0]) == key(s[1]) then [s[0]] + s[2..] else s[1..]);
    }
  }

  lemma {:induction false} DedupKeepsKeys<T(!new)>(key: T -> seq<nat>, s: seq<T>, x: T)
    requires x in s
    ensures exists y :: y in DedupByKey(key, s) && key(y) == key(x)
    decreases |s|
  {
    if |s| <= 1 {
      assert x in DedupByKey(key, s);
    } else if key(s[0]) == key(s[1]) {
      var t := [s[0]] + s[2..];
      assert s == [s[0]] + [s[1]] + s[2..];
      DedupKeepsKeys(key, t, if x in t then x else s[0]);
    } else if x == s[0] {
      assert x in DedupByKey(key, s);
    } else {
      assert s == [s[0]] + s[1..];
      DedupKeepsKeys(key, s[1..], x);
      var y :| y in DedupByKey(key, s[1..]) && key(y) == key(x);
      assert y in DedupByKey(key, s);
    }
  }

  lemma {:induction false} DedupSortsStrictly<T(!new)>(key: T -> seq<nat>, s: seq<T>)
    requires SortedBy(ByKey(key), s)
    ensures StrictlySorted(key, DedupByKey(key, s))
    decreases |s|
  {
    if |s| <= 1 {
    } else if key(s[0]) == key(s[1]) {
      DedupSortsStrictly(key, [s[0]] + s[2..]);
    } else {
      DedupSortsStrictly(key, s[1..]);
      DedupKeepsMembers(key, s[1..]);
      var r := DedupByKey(key, s[1..]);
      assert ByKey(key)(s[0], s[1]);
      forall j | 0 <= j < |r| ensures LexLess(key(s[0]), key(r[j])) {
        if j > 0 { LexTransitive(key(s[0]), key(r[0]), key(r[j])); }
      }
    }
  }

  ghost predicate KeysApart<T(!new)>(key: T -> seq<nat>, s: seq<T>) {
    forall i, j :: 0 <= i < j < |s| ==> key(s[i]) != key(s[j])
  }

  lemma {:induction false} DedupOfDistinctKeys<T(!new)>(key: T -> seq<nat>, s: seq<T>)
    requires KeysApart(key, s)
    ensures DedupByKey(key, s) == s
  {
    if |s| <= 1 {
    } else {
      DedupOfDistinctKeys(key, s[1..]);
      assert s == [s[0]] + s[1..];
    }
  }

  lemma SortKeepsKeysApart<T(!new)>(key: T -> seq<nat>, s: seq<T>)
    requires KeysApart(key, s)
    ensures KeysApart(key, Sort(ByKey(key), s))
  {
    var sorted := Sort(ByKey(key), s);
    SortKeepsMembers(ByKey(key), s);
    SortKeepsDistinct(ByKey(key), s);
    forall i, j | 0 <= i < j < |sorted| ensures key(sorted[i]) != key(sorted[j]) {
      assert sorted[i] in s && sorted[j] in s;
      var x :| 0 <= x < |s| && s[x] == sorted[i];
      var y :| 0 <= y < |s| && s[y] == sorted[j];
    }
  }

  lemma {:induction false} DistinctCount<T(!new)>(s: seq<T>)
    requires Distinct(s)
    ensures |set x | x in s| == |s|
  {
    if s == [] {
    } else {
      var last := |s| - 1;
      DistinctCount(s[..last]);
      assert s == s[..last] + [s[last]];
      assert (set x | x in s) == (set x | x in s[..last]) + {s[last]};
    }
  }

  lemma DistinctSameMembers<T(!new)>(a: seq<T>, b: seq<T>)
    requires Distinct(a) && Distinct(b) && forall x :: x in a <==> x in b
    ensures multiset(a) == multiset(b)
  {
    forall x ensures multiset(a)[x] == multiset(b)[x] {
      DistinctIsSimpleMultiset(a, x);
      DistinctIsSimpleMultiset(b, x);
    }
  }

  /** A strictly sorted list is determined by its members. */
  lemma StrictlySortedIsUnique<T(!new)>(key: T -> seq<nat>, a: seq<T>, b: seq<T>)
    requires StrictlySorted(key, a) && StrictlySorted(key, b)
    requires forall x :: x in a <==> x in b
    ensures a == b
  {
    StrictlyMeansDistinct(key, a);
    StrictlyMeansDistinct(key, b);
    DistinctSameMembers(a, b);
    ByKeyIsPreorder(key);
    var u := set x | x in a;
    forall x, y | x in u && y in u && ByKey(key)(x, y) && ByKey(key)(y, x) ensures x == y {
      LexConnected(key(x), key(y));
      var i :| 0 <= i < |a| && a[i] == x;
      var j :| 0 <= j < |a| && a[j] == y;
    }
    SortedIsUnique(ByKey(key), a, b, u);
  }

  lemma StrictlyMeansDistinct<T(!new)>(key: T -> seq<nat>, s: seq<T>)
    requires StrictlySorted(key, s)
    ensures Distinct(s) && SortedBy(ByKey(key), s)
  {
    forall i, j | 0 <= i < j < |s| ensures s[i] != s[j] && ByKey(key)(s[i], s[j]) {
      LexConnected(key(s[i]), key(s[j]));
    }
  }

  lemma SortIsStrict<T(!new)>(key: T -> seq<nat>, s: seq<T>)
    requires Distinct(s) && forall x, y :: key(x) == key(y) ==> x == y
    ensures StrictlySorted(key, Sort(ByKey(key), s))
    ensures forall x :: x in Sort(ByKey(key), s) <==> x in s
  {
    ByKeyIsPreorder(key);
    SortSorts(ByKey(key), s);
    SortKeepsDistinct(ByKey(key), s);
    SortKeepsMembers(ByKey(key), s);
    var t := Sort(ByKey(key), s);
    forall i, j | 0 <= i < j < |t| ensures LexLess(key(t[i]), key(t[j])) {
      assert ByKey(key)(t[i], t[j]);
    }
  }
}
