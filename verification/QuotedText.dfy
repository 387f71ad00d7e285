/** How the documentation check reads lines written in any mixture of plain and quoted text. */
module QuotedText {
  import opened Wrappers
  import opened Whitespace
  import opened DocCommands

  /** A stretch of text without quotation marks, or one between two marks of a kind. */
  datatype Piece = Plain(text: string) | Quoted(mark: char, text: string)

  predicate IsMark(c: char) {
    c == '\'' || c == '"'
  }

  predicate Sound(p: Piece) {
    match p
    case Plain(text) => forall i :: 0 <= i < |text| ==> !IsMark(text[i])
    case Quoted(mark, text) => IsMark(mark) && mark !in text
  }

  function Written(p: Piece): string {
    match p
    case Plain(text) => text
    case Quoted(mark, text) => [mark] + text + [mark]
  }

  function WrittenAll(ps: seq<Piece>): string {
    if ps == [] then "" else WrittenAll(ps[..|ps| - 1]) + Written(ps[|ps| - 1])
  }

  /** What the pieces say once the marks are gone. */
  function TextOf(ps: seq<Piece>): string {
    if ps == [] then "" else TextOf(ps[..|ps| - 1]) + ps[|ps| - 1].text
  }

  // ----- words -----

  /** A piece of a word: outside of marks it holds no space, and it is not empty. */
  predicate InWord(p: Piece) {
    Sound(p) && (p.Plain? ==> p.text != "" && forall i :: 0 <= i < |p.text| ==> !IsSpace(p.text[i]))
  }

  predicate IsWord(ps: seq<Piece>) {
    ps != [] && forall i :: 0 <= i < |ps| ==> InWord(ps[i])
  }

  predicate IsGap(s: string) {
    forall i :: 0 <= i < |s| ==> IsSpace(s[i])
  }

  lemma {:induction false} ScanPlain(t: Scan, s: string)
    requires t.quote == None && forall i :: 0 <= i < |s| ==> !IsMark(s[i]) && !IsSpace(s[i])
    ensures ScanAll(t, s) == t.(cur := t.cur + s, started := t.started || s != "")
  {
    hide IsSpace;
    if s == "" {
      assert t.cur + s == t.cur;
    } else {
      var init, last := s[..|s| - 1], s[|s| - 1];
      ScanPlain(t, init);
      assert t.cur + s == t.cur + init + [last];
    }
  }

  lemma {:induction false} ScanWithin(t: Scan, s: string)
    requires t.quote.Some? && t.quote.value !in s
    ensures ScanAll(t, s) == t.(cur := t.cur + s)
  {
    hide IsSpace;
    if s == "" {
      assert t.cur + s == t.cur;
    } else {
      ScanWithin(t, s[..|s| - 1]);
      assert t.cur + s == t.cur + s[..|s| - 1] + [s[|s| - 1]];
    }
  }

  lemma ScanPiece(t: Scan, p: Piece)
    requires t.quote == None && InWord(p)
    ensures ScanAll(t, Written(p)) == t.(cur := t.cur + p.text, started := true)
  {
    match p
    case Plain(text) => ScanPlain(t, text);
    case Quoted(mark, text) =>
      var inside := t.(quote := Some(mark), started := true);
      ScanOne(t, mark);
      ScanConcat(t, [mark], text);
      ScanWithin(inside, text);
      ScanConcat(t, [mark] + text, [mark]);
      ScanOne(inside.(cur := inside.cur + text), mark);
  }

  lemma {:induction false} ScanPieces(t: Scan, ps: seq<Piece>)
    requires t.quote == None && forall i :: 0 <= i < |ps| ==> InWord(ps[i])
    ensures ScanAll(t, WrittenAll(ps)) == t.(cur := t.cur + TextOf(ps), started := t.started || ps != [])
  {
    hide Written, InWord, ScanAll;
    if ps == [] {
      ScanNothing(t);
      assert TextOf(ps) == "" && t.cur + "" == t.cur;
    } else {
      var init, last := ps[..|ps| - 1], ps[|ps| - 1];
      var u := t.(cur := t.cur + TextOf(init), started := t.started || init != []);
      ScanPieces(t, init);
      ScanConcat(t, WrittenAll(init), Written(last));
      ScanPiece(u, last);
      InThree(t.cur, TextOf(init), last.text);
    }
  }

  lemma InThree(a: string, b: string, c: string)
    ensures a + b + c == a + (b + c)
  {}

  lemma ScanNothing(t: Scan)
    ensures ScanAll(t, "") == t
  {}

  lemma {:induction false} ScanGap(t: Scan, gap: string)
    requires t.quote == None && IsGap(gap) && (t.started || t.cur == "")
    ensures ScanAll(t, gap) == if gap != "" && t.started then Scan(t.out + [t.cur], "", false, None) else t
  {
    if gap == "" {
    } else {
      var init, last := gap[..|gap| - 1], gap[|gap| - 1];
      ScanGap(t, init);
      SpaceIsNoMark(last);
    }
  }

  lemma SpaceIsNoMark(c: char)
    requires IsSpace(c)
    ensures !IsMark(c)
  {}

  /** A line: each word behind a gap, which only the first word can do without. */
  predicate IsLine(gaps: seq<string>, words: seq<seq<Piece>>) {
    && |gaps| == |words|
    && (forall i :: 0 <= i < |words| ==> IsWord(words[i]) && IsGap(gaps[i]))
    && (forall i :: 0 < i < |gaps| ==> gaps[i] != "")
  }

  function Line(gaps: seq<string>, words: seq<seq<Piece>>): string
    requires |gaps| == |words|
  {
    if words == [] then ""
    else
      var n := |words| - 1;
      Line(gaps[..n], words[..n]) + gaps[n] + WrittenAll(words[n])
  }

  function Texts(words: seq<seq<Piece>>): (r: seq<string>)
    ensures |r| == |words| && forall i :: 0 <= i < |r| ==> r[i] == TextOf(words[i])
  {
    seq(|words|, i requires 0 <= i < |words| => TextOf(words[i]))
  }

  /** After a line its last word is still being read. */
  function Read(words: seq<seq<Piece>>): Scan {
    if words == [] then START
    else Scan(Texts(words[..|words| - 1]), TextOf(words[|words| - 1]), true, None)
  }

  lemma {:induction false} ScanLine(gaps: seq<string>, words: seq<seq<Piece>>)
    requires IsLine(gaps, words)
    ensures ScanAll(START, Line(gaps, words)) == Read(words)
    decreases |words|
  {
    hide ScanAll, WrittenAll, TextOf, IsGap, IsWord;
    if words == [] {
      NothingScanned();
    } else {
      var n := |words| - 1;
      var before, t := Line(gaps[..n], words[..n]), Read(words[..n]);
      ScanLine(gaps[..n], words[..n]);
      ScanConcat(START, before, gaps[n]);
      ScanGap(t, gaps[n]);
      var u := if gaps[n] != "" && t.started then Scan(t.out + [t.cur], "", false, None) else t;
      assert u == Scan(Texts(words[..n]), "", false, None) by { ReadThenGap(words, n); }
      ScanConcat(START, before + gaps[n], WrittenAll(words[n]));
      ScanWord(u, words[n]);
    }
  }

  lemma NothingScanned()
    ensures ScanAll(START, "") == START
  {}

  lemma ReadThenGap(words: seq<seq<Piece>>, n: nat)
    requires n < |words|
    ensures n > 0 ==> Read(words[..n]).started && Read(words[..n]).out + [Read(words[..n]).cur] == Texts(words[..n])
    ensures n == 0 ==> Read(words[..n]) == START && Texts(words[..n]) == []
  {
    if n > 0 {
      var init := words[..n];
      assert init[..n - 1] == words[..n - 1];
      assert Texts(init) == Texts(init[..n - 1]) + [TextOf(init[n - 1])];
    }
  }

  lemma ScanWord(t: Scan, word: seq<Piece>)
    requires t.quote == None && t.cur == "" && IsWord(word)
    ensures ScanAll(t, WrittenAll(word)) == t.(cur := TextOf(word), started := true)
  {
    ScanPieces(t, word);
    assert t.cur + TextOf(word) == TextOf(word);
  }

  /** However a line mixes plain text and the two kinds of quotation, its words are cut at the unquoted
      spaces and read without their marks; an empty quotation is an empty word. */
  lemma WordsOfALine(gaps: seq<string>, words: seq<seq<Piece>>, tail: string)
    requires IsLine(gaps, words) && IsGap(tail)
    ensures Tokens(Line(gaps, words) + tail) == Texts(words)
  {
    hide ScanAll, TextOf, WrittenAll, IsWord;
    ScanLine(gaps, words);
    ScanConcat(START, Line(gaps, words), tail);
    ScanGap(Read(words), tail);
    if words != [] {
      assert Texts(words) == Texts(words[..|words| - 1]) + [TextOf(words[|words| - 1])];
    }
  }

  /** A quotation that is never closed takes the rest of the line into the last word. */
  lemma UnclosedQuotationRunsOn(gaps: seq<string>, words: seq<seq<Piece>>, gap: string, mark: char, rest: string)
    requires IsLine(gaps, words) && IsGap(gap) && gap != "" && IsMark(mark) && mark !in rest
    ensures Tokens(Line(gaps, words) + gap + [mark] + rest) == Texts(words) + [rest]
  {
    hide ScanAll, TextOf, WrittenAll, IsWord;
    var line, t := Line(gaps, words), Scan(Texts(words), "", false, None);
    ScanLine(gaps, words);
    ScanConcat(START, line, gap);
    ScanGap(Read(words), gap);
    if words != [] {
      assert Texts(words) == Texts(words[..|words| - 1]) + [TextOf(words[|words| - 1])];
    }
    ScanConcat(START, line + gap, [mark]);
    ScanOne(t, mark);
    ScanConcat(START, line + gap + [mark], rest);
    ScanWithin(t.(started := true, quote := Some(mark)), rest);
    assert "" + rest == rest;
  }

  // ----- stages -----

  /** A piece of a stage: outside of marks it holds no bar. */
  predicate InStage(p: Piece) {
    Sound(p) && (p.Plain? ==> '|' !in p.text)
  }

  predicate IsStage(ps: seq<Piece>) {
    forall i :: 0 <= i < |ps| ==> InStage(ps[i])
  }

  lemma CopiesPiece(t: Cut, p: Piece)
    requires t.quote == None && InStage(p)
    ensures Copies(t, Written(p))
  {
    match p
    case Plain(text) => CutNothing(t, text);
    case Quoted(mark, text) =>
      var inside := t.(quote := Some(mark), last := t.last + [mark]);
      CutOne(t, mark);
      CutConcat(t, [mark], text);
      CutNothing(inside, text);
      CutConcat(t, [mark] + text, [mark]);
      CutOne(inside.(last := inside.last + text), mark);
      assert t.last + Written(p) == t.last + [mark] + text + [mark];
  }

  lemma {:induction false} CopiesPieces(t: Cut, ps: seq<Piece>)
    requires t.quote == None && IsStage(ps)
    ensures Copies(t, WrittenAll(ps))
  {
    hide Written, InStage;
    if ps == [] {
      CopiesNothing(t, "");
    } else {
      var init, last := ps[..|ps| - 1], ps[|ps| - 1];
      CopiesPieces(t, init);
      CopiesPiece(t.(last := t.last + WrittenAll(init)), last);
      CopiesConcat(t, WrittenAll(init), Written(last));
    }
  }

  function StagesWritten(stages: seq<seq<Piece>>): (r: seq<string>)
    ensures |r| == |stages| && forall i :: 0 <= i < |r| ==> r[i] == WrittenAll(stages[i])
  {
    seq(|stages|, i requires 0 <= i < |stages| => WrittenAll(stages[i]))
  }

  lemma {:induction false} CutStages(stages: seq<seq<Piece>>)
    requires stages != [] && forall i :: 0 <= i < |stages| ==> IsStage(stages[i])
    ensures
      var texts := StagesWritten(stages);
      CutAll(Cut([], "", None), Piped(texts)) == Cut(texts[..|texts| - 1], texts[|texts| - 1], None)
    decreases |stages|
  {
    hide CutAll, WrittenAll, IsStage, Copies;
    var n, texts, start := |stages| - 1, StagesWritten(stages), Cut([], "", None);
    CopyStage(texts[..n], stages[n]);
    if n == 0 {
      assert texts[..0] == [];
    } else {
      var init := StagesWritten(stages[..n]);
      assert init == texts[..n];
      CutStages(stages[..n]);
      var u := Cut(init[..n - 1], init[n - 1], None);
      CutConcat(start, Piped(init), "|");
      CutOne(u, '|');
      assert init[..n - 1] + [init[n - 1]] == init;
      CutConcat(start, Piped(init) + "|", texts[n]);
    }
  }

  lemma CopyStage(done: seq<string>, stage: seq<Piece>)
    requires IsStage(stage)
    ensures CutAll(Cut(done, "", None), WrittenAll(stage)) == Cut(done, WrittenAll(stage), None)
  {
    CopiesPieces(Cut(done, "", None), stage);
    assert "" + WrittenAll(stage) == WrittenAll(stage);
  }

  /** A pipeline is cut at its unquoted bars and nowhere else, and its stages keep their marks. */
  lemma StagesOfALine(stages: seq<seq<Piece>>)
    requires stages != [] && forall i :: 0 <= i < |stages| ==> IsStage(stages[i])
    ensures Stages(Piped(StagesWritten(stages))) == StagesWritten(stages)
  {
    hide CutAll;
    CutStages(stages);
    var texts := StagesWritten(stages);
    assert texts == texts[..|texts| - 1] + [texts[|texts| - 1]];
  }
}
