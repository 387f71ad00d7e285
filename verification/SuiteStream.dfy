/** The bytes fed to the suite hash, and the decoder that reads them back. */
module SuiteStream {
  import opened Wrappers
  import opened CaseTree

  /** One file of the suite: its case, its slash-separated path inside the case, its bytes. */
  datatype Record = Record(id: Name, relative: seq<Byte>, bytes: seq<Byte>)

  // ----- slash-separated paths -----

  function Find(s: seq<Byte>, b: Byte): (k: nat)
    ensures k <= |s| && b !in s[..k]
    ensures k < |s| ==> s[k] == b
  {
    if s == [] || s[0] == b then 0
    else
      assert s == [s[0]] + s[1..];
      1 + Find(s[1..], b)
  }

  function Slashed(path: Path): (r: seq<Byte>) {
    if path == [] then []
    else if |path| == 1 then path[0]
    else path[0] + [SLASH] + Slashed(path[1..])
  }

  function Split(s: seq<Byte>): (path: Path)
    ensures path != []
  {
    var k := Find(s, SLASH);
    if k == |s| then [s] else [s[..k]] + Split(s[k + 1..])
  }

  lemma FindFirst(a: seq<Byte>, b: Byte, rest: seq<Byte>)
    requires b !in a
    ensures Find(a + [b] + rest, b) == |a|
  {
    var s := a + [b] + rest;
    var k := Find(s, b);
    assert forall i :: 0 <= i < |a| ==> s[i] == a[i];
    assert forall i :: 0 <= i < k ==> s[i] == s[..k][i];
    assert s[|a|] == b;
  }

  lemma FindNone(a: seq<Byte>, b: Byte)
    requires b !in a
    ensures Find(a, b) == |a|
  {}

  lemma SplitOnce(name: Name, s: seq<Byte>)
    requires SLASH !in name
    ensures Split(name + [SLASH] + s) == [name] + Split(s)
  {
    hide Find;
    var t := name + [SLASH] + s;
    FindFirst(name, SLASH, s);
    assert t[..|name|] == name && t[|name| + 1..] == s;
  }

  lemma {:induction false} SplitSlashed(path: Path)
    requires path != [] && forall i :: 0 <= i < |path| ==> SLASH !in path[i]
    ensures Split(Slashed(path)) == path
  {
    hide Find;
    if |path| > 1 {
      SplitSlashed(path[1..]);
      SplitOnce(path[0], Slashed(path[1..]));
      assert path == [path[0]] + path[1..];
    } else {
      FindNone(path[0], SLASH);
    }
  }

  lemma SlashedCons(name: Name, path: Path)
    requires path != []
    ensures Slashed([name] + path) == name + [SLASH] + Slashed(path)
  {}

  lemma {:induction false} SlashedSplit(s: seq<Byte>)
    ensures Slashed(Split(s)) == s
  {
    hide Find, Slashed;
    var k := Find(s, SLASH);
    if k < |s| {
      var rest := s[k + 1..];
      SlashedSplit(rest);
      SlashedCons(s[..k], Split(rest));
      assert Split(s) == [s[..k]] + Split(rest);
      assert s == s[..k] + [SLASH] + rest;
    } else {
      SlashedOne(s);
    }
  }

  lemma SlashedOne(name: Name)
    ensures Slashed([name]) == name
  {}

  // ----- decimal lengths -----

  function Decimal(n: nat): (r: seq<Byte>)
    ensures r != [] && NUL !in r
  {
    if n < 10 then [48 + n] else Decimal(n / 10) + [48 + n % 10]
  }

  function ParseDecimal(s: seq<Byte>): Option<nat> {
    if s == [] then None
    else
      var d := s[|s| - 1];
      if !(48 <= d <= 57) then None
      else if |s| == 1 then Some(d - 48)
      else
        match ParseDecimal(s[..|s| - 1])
        case None => None
        case Some(n) => Some(10 * n + (d - 48))
  }

  lemma {:induction false} DecimalRoundTrip(n: nat)
    ensures ParseDecimal(Decimal(n)) == Some(n)
  {
    if n >= 10 {
      DecimalRoundTrip(n / 10);
      assert Decimal(n)[..|Decimal(n)| - 1] == Decimal(n / 10);
    }
  }

  /** A length is written in decimal digits, and begins with a zero only when it is zero. */
  lemma {:induction false} DecimalIsPlain(n: nat)
    ensures forall i :: 0 <= i < |Decimal(n)| ==> '0' as nat <= Decimal(n)[i] <= '9' as nat
    ensures Decimal(n)[0] == '0' as nat <==> n == 0
  {
    if n >= 10 {
      DecimalIsPlain(n / 10);
      assert Decimal(n)[0] == Decimal(n / 10)[0];
    }
  }

  // ----- the stream -----

  function Encode(r: Record): seq<Byte> {
    r.id + [SLASH] + r.relative + [NUL] + Decimal(|r.bytes|) + [NUL] + r.bytes
  }

  function EncodeAll(records: seq<Record>): seq<Byte> {
    if records == [] then [] else EncodeAll(records[..|records| - 1]) + Encode(records[|records| - 1])
  }

  function Decode(s: seq<Byte>): Option<seq<Record>>
    decreases |s|
  {
    if s == [] then Some([])
    else
      var k := Find(s, NUL);
      if k == |s| then None
      else
        var path, t := s[..k], s[k + 1..];
        var c, l := Find(path, SLASH), Find(t, NUL);
        if c == |path| || l == |t| then None
        else
          match ParseDecimal(t[..l])
          case None => None
          case Some(n) =>
            var u := t[l + 1..];
            if n > |u| then None
            else
              match Decode(u[n..])
              case None => None
              case Some(rest) => Some([Record(path[..c], path[c + 1..], u[..n])] + rest)
  }

  predicate ValidRecord(r: Record) {
    SLASH !in r.id && NUL !in r.id && NUL !in r.relative
  }

  /** Where the decoder cuts one record off the stream. */
  lemma RecordCuts(r: Record, rest: seq<Byte>)
    requires ValidRecord(r)
    ensures
      var path, digits := r.id + [SLASH] + r.relative, Decimal(|r.bytes|);
      var t := digits + [NUL] + (r.bytes + rest);
      var s := Encode(r) + rest;
      && s == path + [NUL] + t
      && Find(s, NUL) == |path| && Find(path, SLASH) == |r.id| && Find(t, NUL) == |digits|
      && s[..|path|] == path && s[|path| + 1..] == t
      && t[..|digits|] == digits && t[|digits| + 1..] == r.bytes + rest
  {
    hide Find, Decimal;
    var path, digits := r.id + [SLASH] + r.relative, Decimal(|r.bytes|);
    var t := digits + [NUL] + (r.bytes + rest);
    var s := Encode(r) + rest;
    assert s == path + [NUL] + t;
    FindFirst(path, NUL, t);
    FindFirst(r.id, SLASH, r.relative);
    FindFirst(digits, NUL, r.bytes + rest);
  }

  lemma PartsOfPath(r: Record, rest: seq<Byte>)
    ensures
      var path := r.id + [SLASH] + r.relative;
      path[..|r.id|] == r.id && path[|r.id| + 1..] == r.relative
    ensures (r.bytes + rest)[..|r.bytes|] == r.bytes && (r.bytes + rest)[|r.bytes|..] == rest
  {}

  lemma DecodeStep(r: Record, rest: seq<Byte>)
    requires ValidRecord(r)
    ensures Decode(Encode(r) + rest) == Prepend([r], Decode(rest))
  {
    hide Find, Decimal, ParseDecimal, Encode;
    RecordCuts(r, rest);
    PartsOfPath(r, rest);
    DecimalRoundTrip(|r.bytes|);
    assert Encode(r) + rest != [];
  }

  ghost function Prepend(records: seq<Record>, decoded: Option<seq<Record>>): Option<seq<Record>> {
    match decoded case None => None case Some(rs) => Some(records + rs)
  }

  lemma PrependTwice(init: seq<Record>, last: Record, decoded: Option<seq<Record>>)
    ensures Prepend(init, Prepend([last], decoded)) == Prepend(init + [last], decoded)
  {
    if decoded.Some? {
      assert init + ([last] + decoded.value) == (init + [last]) + decoded.value;
    }
  }

  lemma {:induction false} DecodeSuffix(records: seq<Record>, rest: seq<Byte>)
    requires forall i :: 0 <= i < |records| ==> ValidRecord(records[i])
    ensures Decode(EncodeAll(records) + rest) == Prepend(records, Decode(rest))
  {
    hide Decode, Encode;
    if records == [] {
      assert EncodeAll(records) + rest == rest;
      if Decode(rest).Some? { assert records + Decode(rest).value == Decode(rest).value; }
    } else {
      var init, last := records[..|records| - 1], records[|records| - 1];
      assert EncodeAll(records) + rest == EncodeAll(init) + (Encode(last) + rest);
      DecodeSuffix(init, Encode(last) + rest);
      DecodeStep(last, rest);
      PrependTwice(init, last, Decode(rest));
      assert init + [last] == records;
    }
  }

  /** The decoder recovers exactly the records that were written. */
  lemma StreamRoundTrip(records: seq<Record>)
    requires forall i :: 0 <= i < |records| ==> ValidRecord(records[i])
    ensures Decode(EncodeAll(records)) == Some(records)
  {
    DecodeSuffix(records, []);
    assert EncodeAll(records) + [] == EncodeAll(records);
    assert records + [] == records;
  }

  /** The bytes of a text. */
  function Bytes(text: string): (r: seq<Byte>)
    requires forall i :: 0 <= i < |text| ==> text[i] as nat < 256
    ensures |r| == |text| && forall i :: 0 <= i < |r| ==> r[i] == text[i] as nat
  {
    seq(|text|, i requires 0 <= i < |text| => text[i] as nat)
  }

  lemma OneRecord(r: Record, path: seq<Byte>, length: seq<Byte>)
    requires path == r.id + [SLASH] + r.relative && length == Decimal(|r.bytes|)
    ensures EncodeAll([r]) == path + [NUL] + length + [NUL] + r.bytes
  {
    assert [r][..0] == [];
  }

  /** The record of one file, byte for byte. */
  lemma OneRecordInFull()
    ensures EncodeAll([Record(Bytes("a"), Bytes("graders/b.py"), Bytes("hello world!"))])
      == Bytes("a/graders/b.py") + [0] + Bytes("12") + [0] + Bytes("hello world!")
  {
    TwelveInFull();
    hide Decimal, EncodeAll;
    assert Bytes("a") + [SLASH] + Bytes("graders/b.py") == Bytes("a/graders/b.py");
    OneRecord(Record(Bytes("a"), Bytes("graders/b.py"), Bytes("hello world!")), Bytes("a/graders/b.py"), Bytes("12"));
  }

  lemma TwelveInFull()
    ensures Decimal(12) == Bytes("12")
  {
    assert Decimal(1) == [49];
  }
}
