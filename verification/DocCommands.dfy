/** How the repository's own documentation check reads command lines: words, honouring quotes,
    and pipeline stages. */
module DocCommands {
  import opened Wrappers
  import opened Whitespace
  import Shell

  // ----- words -----

  datatype Scan = Scan(out: seq<string>, cur: string, started: bool, quote: Option<char>)

  function ScanChar(t: Scan, c: char): Scan {
    if t.quote == Some(c) then t.(quote := None)
    else if t.quote.Some? then t.(cur := t.cur + [c])
    else if c == '\'' || c == '"' then t.(quote := Some(c), started := true)
    else if IsSpace(c) then (if t.started then Scan(t.out + [t.cur], "", false, None) else t)
    else t.(cur := t.cur + [c], started := true)
  }

  function ScanAll(t: Scan, s: string): Scan {
    if s == "" then t else ScanChar(ScanAll(t, s[..|s| - 1]), s[|s| - 1])
  }

  const START: Scan := Scan([], "", false, None)

  function Finish(t: Scan): seq<string> {
    if t.started then t.out + [t.cur] else t.out
  }

  function Tokens(line: string): seq<string> {
    Finish(ScanAll(START, line))
  }

  method Tokenize(line: string) returns (out: seq<string>)
    ensures out == Tokens(line)
  {
    out := [];
    var cur := "";
    var started := false;
    var quote: Option<char> := None;
    for i := 0 to |line|
      invariant Scan(out, cur, started, quote) == ScanAll(START, line[..i])
    {
      assert line[..i + 1][..i] == line[..i];
      var c := line[i];
      if quote == Some(c) {
        quote := None;
      } else if quote.Some? {
        cur := cur + [c];
      } else if c == '\'' || c == '"' {
        quote := Some(c);
        started := true;
      } else if IsSpace(c) {
        if started {
          out, cur := out + [cur], "";
          started := false;
        }
      } else {
        cur := cur + [c];
        started := true;
      }
    }
    assert line[..|line|] == line;
    if started {
      out := out + [cur];
    }
  }

  lemma {:induction false} ScanConcat(t: Scan, a: string, b: string)
    ensures ScanAll(t, a + b) == ScanAll(ScanAll(t, a), b)
  {
    hide ScanChar;
    if b == "" {
      assert a + b == a;
    } else {
      ScanConcat(t, a, b[..|b| - 1]);
      assert (a + b)[..|a + b| - 1] == a + b[..|b| - 1];
    }
  }

  lemma ScanOne(t: Scan, c: char)
    ensures ScanAll(t, [c]) == ScanChar(t, c)
  {}

  // ----- a command line without single quotes in its words reads back -----

  ghost predicate NoSingleQuote(words: seq<string>) {
    forall i :: 0 <= i < |words| ==> '\'' !in words[i]
  }

  lemma BareCharIsPlain(c: char)
    requires Shell.IsBareChar(c)
    ensures !IsSpace(c) && c != '\'' && c != '"' && c != '|'
  {}

  lemma {:induction false} ScanBare(t: Scan, s: string)
    requires t.quote == None && forall i :: 0 <= i < |s| ==> Shell.IsBareChar(s[i])
    ensures ScanAll(t, s) == t.(cur := t.cur + s, started := t.started || s != "")
  {
    hide Shell.IsBareChar;
    if s == "" {
      assert t.cur + s == t.cur;
    } else {
      var init, last := s[..|s| - 1], s[|s| - 1];
      ScanBare(t, init);
      BareCharIsPlain(last);
      assert t.cur + s == t.cur + init + [last];
    }
  }

  lemma {:induction false} ScanInside(t: Scan, s: string)
    requires t.quote == Some('\'') && '\'' !in s
    ensures ScanAll(t, s) == t.(cur := t.cur + s)
  {
    if s == "" {
      assert t.cur + s == t.cur;
    } else {
      ScanInside(t, s[..|s| - 1]);
      assert t.cur + s == t.cur + s[..|s| - 1] + [s[|s| - 1]];
    }
  }

  lemma {:induction false} NothingToEscape(s: string)
    requires '\'' !in s
    ensures Shell.EscapeAll(s) == s
  {
    if s == "" {
    } else {
      NothingToEscape(s[..|s| - 1]);
      assert s == s[..|s| - 1] + [s[|s| - 1]];
    }
  }

  lemma ScanQuoted(t: Scan, name: string)
    requires t.quote == None && t.cur == "" && !t.started && '\'' !in name
    ensures ScanAll(t, Shell.Quote(name)) == t.(cur := name, started := true)
  {
    hide Shell.IsBareChar;
    if Shell.IsBare(name) {
      ScanBare(t, name);
      assert t.cur + name == name;
    } else {
      NothingToEscape(name);
      hide Shell.IsBare, Shell.EscapeAll;
      var inside := t.(quote := Some('\''), started := true);
      ScanOne(t, '\'');
      ScanConcat(t, ['\''], name);
      ScanInside(inside, name);
      ScanConcat(t, ['\''] + name, ['\'']);
      ScanOne(inside.(cur := inside.cur + name), '\'');
      assert Shell.Quote(name) == ['\''] + name + ['\''];
      assert inside.cur + name == name;
    }
  }

  /** After a command line the words before the last are out and the last is being read. */
  lemma {:induction false} ScanCommandLine(t: Scan, words: seq<string>)
    requires words != [] && NoSingleQuote(words)
    requires t.quote == None && t.cur == "" && !t.started
    ensures ScanAll(t, Shell.CommandLine(words)) ==
            Scan(t.out + words[..|words| - 1], words[|words| - 1], true, None)
  {
    hide Shell.Quote;
    var init, last := words[..|words| - 1], words[|words| - 1];
    if |words| == 1 {
      ScanQuoted(t, last);
      assert t.out + init == t.out;
    } else {
      ScanCommandLine(t, init);
      var r := Scan(t.out + init[..|init| - 1], init[|init| - 1], true, None);
      ScanConcat(t, Shell.CommandLine(init), [' ']);
      ScanOne(r, ' ');
      assert r.out + [r.cur] == t.out + init;
      ScanConcat(t, Shell.CommandLine(init) + [' '], Shell.Quote(last));
      ScanQuoted(Scan(t.out + init, "", false, None), last);
    }
  }

  // ----- and one with a single quote never does: a backslash is left over -----

  function Backslashes(s: string): nat {
    if s == "" then 0 else Backslashes(s[..|s| - 1]) + if s[|s| - 1] == '\\' then 1 else 0
  }

  function AllBackslashes(words: seq<string>): nat {
    if words == [] then 0 else AllBackslashes(words[..|words| - 1]) + Backslashes(words[|words| - 1])
  }

  lemma {:induction false} BackslashesConcat(a: string, b: string)
    ensures Backslashes(a + b) == Backslashes(a) + Backslashes(b)
  {
    if b == "" {
      assert a + b == a;
    } else {
      BackslashesConcat(a, b[..|b| - 1]);
      assert (a + b)[..|a + b| - 1] == a + b[..|b| - 1];
    }
  }

  function Held(t: Scan): nat {
    AllBackslashes(t.out) + Backslashes(t.cur)
  }

  lemma ScanCharKeepsBackslash(t: Scan, c: char)
    requires !t.started ==> t.cur == "" && t.quote == None
    requires t.quote != Some('\\')
    ensures var t' := ScanChar(t, c);
      && Held(t') == Held(t) + (if c == '\\' then 1 else 0)
      && (!t'.started ==> t'.cur == "" && t'.quote == None)
      && t'.quote != Some('\\')
  {}

  lemma {:induction false} ScanKeepsBackslashes(s: string)
    ensures var t := ScanAll(START, s);
      && Held(t) == Backslashes(s)
      && (!t.started ==> t.cur == "" && t.quote == None)
      && t.quote != Some('\\')
  {
    if s == "" {
    } else {
      ScanKeepsBackslashes(s[..|s| - 1]);
      hide ScanChar, Held;
      ScanCharKeepsBackslash(ScanAll(START, s[..|s| - 1]), s[|s| - 1]);
    }
  }

  /** Tokenizing keeps every backslash of the line. */
  lemma TokensKeepBackslashes(line: string)
    ensures AllBackslashes(Tokens(line)) == Backslashes(line)
  {
    ScanKeepsBackslashes(line);
    var t := ScanAll(START, line);
    assert (t.out + [t.cur])[..|t.out|] == t.out;
  }

  lemma {:induction false} EscapingAddsBackslashes(s: string)
    ensures Backslashes(Shell.EscapeAll(s)) >= Backslashes(s)
    ensures '\'' in s ==> Backslashes(Shell.EscapeAll(s)) > Backslashes(s)
  {
    if s == "" {
    } else {
      var init, last := s[..|s| - 1], s[|s| - 1];
      EscapingAddsBackslashes(init);
      assert s == init + [last];
      BackslashesConcat(Shell.EscapeAll(init), Shell.EscapeChar(last));
      EscapedCharBackslashes(last);
    }
  }

  lemma EscapedCharBackslashes(c: char)
    ensures Backslashes(Shell.EscapeChar(c)) == if c == '\\' || c == '\'' then 1 else 0
  {
    if c == '\'' {
      var e: string := Shell.EscapeChar(c);
      assert e[..3][..2] == e[..2] && e[..2][..1] == e[..1] && e[..1][..0] == e[..0] == "";
      assert Backslashes(e[..1]) == 0;
      assert Backslashes(e[..2]) == 1;
      assert Backslashes(e[..3]) == 1;
    } else {
      assert [c][..0] == "";
    }
  }

  lemma QuotingAddsBackslashes(name: string)
    ensures Backslashes(Shell.Quote(name)) >= Backslashes(name)
    ensures '\'' in name ==> Backslashes(Shell.Quote(name)) > Backslashes(name)
  {
    if !Shell.IsBare(name) {
      EscapingAddsBackslashes(name);
      var q: string := ['\''];
      assert q[..0] == "";
      assert Backslashes(q) == 0;
      assert Shell.Quote(name) == q + Shell.EscapeAll(name) + q;
      BackslashesConcat(q, Shell.EscapeAll(name));
      BackslashesConcat(q + Shell.EscapeAll(name), q);
    }
  }

  lemma {:induction false} CommandLineAddsBackslashes(words: seq<string>)
    ensures Backslashes(Shell.CommandLine(words)) >= AllBackslashes(words)
    ensures !NoSingleQuote(words) ==> Backslashes(Shell.CommandLine(words)) > AllBackslashes(words)
  {
    hide Shell.Quote;
    if words == [] {
    } else {
      var init, last := words[..|words| - 1], words[|words| - 1];
      CommandLineAddsBackslashes(init);
      QuotingAddsBackslashes(last);
      assert words == init + [last];
      if |words| > 1 {
        var gap: string := [' '];
        assert gap[..0] == "" && Backslashes(gap) == 0;
        assert Shell.CommandLine(words) == Shell.CommandLine(init) + gap + Shell.Quote(last);
        BackslashesConcat(Shell.CommandLine(init), gap);
        BackslashesConcat(Shell.CommandLine(init) + gap, Shell.Quote(last));
      }
    }
  }

  /** The documentation check's own reading of a quoted command line agrees with the shell's
      exactly when no word holds a single quote. */
  lemma TokensAgreeIffNoSingleQuote(words: seq<string>)
    ensures Tokens(Shell.CommandLine(words)) == words <==> NoSingleQuote(words)
  {
    if NoSingleQuote(words) {
      if words != [] {
        ScanCommandLine(START, words);
        assert words == words[..|words| - 1] + [words[|words| - 1]];
        assert START.out + words[..|words| - 1] == words[..|words| - 1];
      }
    } else {
      TokensKeepBackslashes(Shell.CommandLine(words));
      CommandLineAddsBackslashes(words);
    }
  }

  // ----- pipeline stages -----

  datatype Cut = Cut(done: seq<string>, last: string, quote: Option<char>)

  function CutChar(t: Cut, c: char): Cut {
    if t.quote == Some(c) then t.(last := t.last + [c], quote := None)
    else if t.quote == None && (c == '\'' || c == '"') then t.(last := t.last + [c], quote := Some(c))
    else if t.quote == None && c == '|' then Cut(t.done + [t.last], "", None)
    else t.(last := t.last + [c])
  }

  function CutAll(t: Cut, s: string): Cut {
    if s == "" then t else CutChar(CutAll(t, s[..|s| - 1]), s[|s| - 1])
  }

  function Stages(line: string): seq<string> {
    var t := CutAll(Cut([], "", None), line);
    t.done + [t.last]
  }

  method SplitPipeline(line: string) returns (out: seq<string>)
    ensures out == Stages(line)
  {
    out := [""];
    var quote: Option<char> := None;
    for i := 0 to |line|
      invariant out != []
      invariant Cut(out[..|out| - 1], out[|out| - 1], quote) == CutAll(Cut([], "", None), line[..i])
    {
      assert line[..i + 1][..i] == line[..i];
      var c, end := line[i], |out| - 1;
      ghost var t := Cut(out[..end], out[end], quote);
      if quote == Some(c) {
        quote := None;
        out := out[end := out[end] + [c]];
      } else if quote == None && (c == '\'' || c == '"') {
        quote := Some(c);
        out := out[end := out[end] + [c]];
      } else if quote == None && c == '|' {
        assert out == out[..end] + [out[end]];
        out := out + [""];
      } else {
        out := out[end := out[end] + [c]];
      }
    }
    assert line[..|line|] == line;
    assert out == out[..|out| - 1] + [out[|out| - 1]];
  }

  function Piped(stages: seq<string>): string {
    if stages == [] then ""
    else if |stages| == 1 then stages[0]
    else Piped(stages[..|stages| - 1]) + "|" + stages[|stages| - 1]
  }

  lemma PipedSnoc(stages: seq<string>, last: string, c: char)
    ensures Piped(stages + [last + [c]]) == Piped(stages + [last]) + [c]
    ensures Piped(stages + [last] + [""]) == Piped(stages + [last]) + "|"
  {}

  /** No character is lost or moved: the stages rejoined are the line. */
  lemma {:induction false} StagesRejoin(line: string)
    ensures Piped(Stages(line)) == line
  {
    if line == "" {
    } else {
      var init, c := line[..|line| - 1], line[|line| - 1];
      StagesRejoin(init);
      var t := CutAll(Cut([], "", None), init);
      PipedSnoc(t.done, t.last, c);
      hide Piped, CutAll;
      assert line == init + [c];
      assert c == '|' ==> init + "|" == init + [c];
    }
  }

  lemma {:induction false} CutConcat(t: Cut, a: string, b: string)
    ensures CutAll(t, a + b) == CutAll(CutAll(t, a), b)
  {
    hide CutChar;
    if b == "" {
      assert a + b == a;
    } else {
      CutConcat(t, a, b[..|b| - 1]);
      assert (a + b)[..|a + b| - 1] == a + b[..|b| - 1];
    }
  }

  lemma CutOne(t: Cut, c: char)
    ensures CutAll(t, [c]) == CutChar(t, c)
  {}

  lemma {:induction false} CutNothing(t: Cut, s: string)
    requires forall i :: 0 <= i < |s| ==>
               (t.quote == None && s[i] !in "'\"|") || (t.quote.Some? && s[i] != t.quote.value)
    ensures CutAll(t, s) == t.(last := t.last + s)
  {
    if s == "" {
      assert t.last + s == t.last;
    } else {
      CutNothing(t, s[..|s| - 1]);
      assert t.last + s == t.last + s[..|s| - 1] + [s[|s| - 1]];
    }
  }

  /** The text goes into the current stage as it stands. */
  ghost predicate Copies(t: Cut, s: string) {
    CutAll(t, s) == t.(last := t.last + s)
  }

  lemma CopiesConcat(t: Cut, a: string, b: string)
    requires Copies(t, a) && Copies(t.(last := t.last + a), b)
    ensures Copies(t, a + b)
  {
    CutConcat(t, a, b);
    assert t.last + a + b == t.last + (a + b);
  }

  lemma CopiesOne(t: Cut, c: char)
    requires t.quote == None && c !in "'\"|"
    ensures Copies(t, [c])
  {}

  lemma CutQuoted(t: Cut, name: string)
    requires t.quote == None && '\'' !in name
    ensures Copies(t, Shell.Quote(name))
  {
    if Shell.IsBare(name) {
      forall i | 0 <= i < |name| ensures name[i] !in "'\"|" { BareCharIsPlain(name[i]); }
      CutNothing(t, name);
    } else {
      NothingToEscape(name);
      hide Shell.IsBare, Shell.EscapeAll;
      var inside := t.(quote := Some('\''), last := t.last + ['\'']);
      CutOne(t, '\'');
      CutConcat(t, ['\''], name);
      CutNothing(inside, name);
      CutConcat(t, ['\''] + name, ['\'']);
      CutOne(inside.(last := inside.last + name), '\'');
      assert Shell.Quote(name) == ['\''] + name + ['\''];
      assert t.last + Shell.Quote(name) == t.last + ['\''] + name + ['\''];
    }
  }

  lemma {:induction false} CutCommandLine(t: Cut, words: seq<string>)
    requires NoSingleQuote(words) && t.quote == None
    ensures Copies(t, Shell.CommandLine(words))
  {
    hide Shell.Quote, CutAll;
    if words == [] {
      CopiesNothing(t, Shell.CommandLine(words));
    } else {
      var init, last := words[..|words| - 1], words[|words| - 1];
      if |words| == 1 {
        CutQuoted(t, last);
      } else {
        var a := Shell.CommandLine(init);
        CutCommandLine(t, init);
        CopiesOne(t.(last := t.last + a), ' ');
        hide Copies;
        CopiesConcat(t, a, [' ']);
        CutQuoted(t.(last := t.last + (a + [' '])), last);
        assert t.last + a + [' '] == t.last + (a + [' ']);
        CopiesConcat(t, a + [' '], Shell.Quote(last));
      }
    }
  }

  lemma CopiesNothing(t: Cut, s: string)
    requires s == ""
    ensures Copies(t, s)
  {}

  // ----- a whole pipeline reads back -----

  function Pipeline(commands: seq<seq<string>>): string {
    if commands == [] then ""
    else if |commands| == 1 then Shell.CommandLine(commands[0])
    else Pipeline(commands[..|commands| - 1]) + " | " + Shell.CommandLine(commands[|commands| - 1])
  }

  function TokensOfAll(stages: seq<string>): (r: seq<seq<string>>)
    ensures |r| == |stages| && forall i :: 0 <= i < |r| ==> r[i] == Tokens(stages[i])
  {
    seq(|stages|, i requires 0 <= i < |stages| => Tokens(stages[i]))
  }

  ghost predicate Renderable(commands: seq<seq<string>>) {
    commands != [] && forall i :: 0 <= i < |commands| ==> NoSingleQuote(commands[i])
  }

  function Gap(spaced: bool): string {
    if spaced then [' '] else []
  }

  /** A stage holds its command with a space on each side that meets another stage. */
  function StageText(words: seq<string>, before: bool, after: bool): string {
    Gap(before) + Shell.CommandLine(words) + Gap(after)
  }

  lemma GapScans(t: Scan, spaced: bool)
    requires t.quote == None
    ensures ScanAll(t, Gap(spaced)) == if spaced && t.started then Scan(t.out + [t.cur], "", false, None) else t
  {}

  lemma LastWord(words: seq<string>)
    requires words != []
    ensures words[..|words| - 1] + [words[|words| - 1]] == words
    ensures [] + words[..|words| - 1] == words[..|words| - 1]
  {}

  lemma StageScans(start: Scan, words: seq<string>, before: bool, after: bool)
    requires words != [] && NoSingleQuote(words) && start == START
    ensures ScanAll(start, StageText(words, before, after)) ==
            if after then Scan(words, "", false, None) else Scan(words[..|words| - 1], words[|words| - 1], true, None)
  {
    var line := Shell.CommandLine(words);
    hide Shell.CommandLine, NoSingleQuote, ScanAll, Gap, ScanChar;
    ScanCommandLine(start, words);
    LastWord(words);
    var t := Scan(words[..|words| - 1], words[|words| - 1], true, None);
    GapScans(start, before);
    GapScans(t, after);
    ScanConcat(start, Gap(before), line);
    ScanConcat(start, Gap(before) + line, Gap(after));
  }

  lemma EmptyStageTokens(words: seq<string>, before: bool, after: bool)
    requires words == []
    ensures Tokens(StageText(words, before, after)) == words
  {
    hide ScanAll, Gap;
    GapScans(START, before);
    GapScans(START, after);
    ScanConcat(START, Gap(before), Gap(after));
    assert StageText(words, before, after) == Gap(before) + Gap(after);
  }

  lemma StageTokens(words: seq<string>, before: bool, after: bool)
    requires NoSingleQuote(words)
    ensures Tokens(StageText(words, before, after)) == words
  {
    hide StageText, ScanAll, NoSingleQuote;
    if words == [] {
      EmptyStageTokens(words, before, after);
    } else {
      StageScans(START, words, before, after);
      LastWord(words);
    }
  }

  lemma GapCuts(t: Cut, s: string, spaced: bool)
    requires t.quote == None && Copies(t, s)
    ensures Copies(t, s + Gap(spaced))
  {
    if spaced {
      CopiesOne(t.(last := t.last + s), ' ');
      CopiesConcat(t, s, [' ']);
    } else {
      assert s + Gap(spaced) == s;
    }
  }

  lemma StageCuts(t: Cut, words: seq<string>, before: bool, after: bool)
    requires t.quote == None && t.last == "" && NoSingleQuote(words)
    ensures CutAll(t, StageText(words, before, after)) == t.(last := StageText(words, before, after))
  {
    var line := Shell.CommandLine(words);
    CopiesNothing(t, []);
    GapCuts(t, [], before);
    assert [] + Gap(before) == Gap(before);
    CutCommandLine(t.(last := t.last + Gap(before)), words);
    CopiesConcat(t, Gap(before), line);
    GapCuts(t, Gap(before) + line, after);
  }

  /** The stages of a pipeline before its last one, and the last one followed by `after`. */
  function StageTexts(commands: seq<seq<string>>, after: bool): (r: seq<string>)
    ensures |r| == |commands|
  {
    seq(|commands|, i requires 0 <= i < |commands| => StageText(commands[i], i > 0, i < |commands| - 1 || after))
  }

  lemma PipelineSnoc(commands: seq<seq<string>>)
    requires |commands| > 1
    ensures var init := commands[..|commands| - 1];
      Pipeline(commands) == Pipeline(init) + Gap(true) + ['|'] + StageText(commands[|commands| - 1], true, false)
  {
    var line := Shell.CommandLine(commands[|commands| - 1]);
    hide Shell.CommandLine;
    assert " | " == [' '] + ['|'] + [' '];
    assert StageText(commands[|commands| - 1], true, false) == [' '] + line;
  }

  lemma StageTextsSnoc(commands: seq<seq<string>>, after: bool)
    requires |commands| > 1
    ensures StageTexts(commands, after)[..|commands| - 1] == StageTexts(commands[..|commands| - 1], true)
    ensures StageTexts(commands, after)[|commands| - 1] == StageText(commands[|commands| - 1], true, after)
  {}

  lemma SingleStageCuts(start: Cut, commands: seq<seq<string>>, after: bool)
    requires |commands| == 1 && NoSingleQuote(commands[0]) && start == Cut([], "", None)
    ensures CutAll(start, Pipeline(commands) + Gap(after)) == Cut([], StageTexts(commands, after)[0], None)
  {
    StageCuts(start, commands[0], false, after);
    SingleStage(commands, after);
  }

  /** Just after the last stage, with a space still to come or not. */
  lemma {:induction false} PipelineCuts(start: Cut, commands: seq<seq<string>>, after: bool)
    requires Renderable(commands) && start == Cut([], "", None)
    ensures var texts := StageTexts(commands, after);
      CutAll(start, Pipeline(commands) + Gap(after)) == Cut(texts[..|texts| - 1], texts[|texts| - 1], None)
  {
    hide Pipeline, StageText, CutAll, NoSingleQuote, Gap, StageTexts;
    var n := |commands|;
    if n == 1 {
      SingleStageCuts(start, commands, after);
      assert StageTexts(commands, after)[..0] == [];
    } else {
      var init, stages := commands[..n - 1], StageTexts(commands[..n - 1], true);
      PipelineCuts(start, init, true);
      LastStageCuts(start, Pipeline(init) + Gap(true), Cut(stages[..n - 2], stages[n - 2], None), commands[n - 1], after);
      PipelineTail(commands, after);
      StageTextsSnoc(commands, after);
      assert stages[..n - 2] + [stages[n - 2]] == stages;
    }
  }

  lemma LastStageCuts(start: Cut, head: string, u: Cut, last: seq<string>, after: bool)
    requires CutAll(start, head) == u && u.quote == None && NoSingleQuote(last)
    ensures CutAll(start, head + ['|'] + StageText(last, true, after)) ==
            Cut(u.done + [u.last], StageText(last, true, after), None)
  {
    CutConcat(start, head, ['|']);
    CutOne(u, '|');
    StageCuts(Cut(u.done + [u.last], "", None), last, true, after);
    CutConcat(start, head + ['|'], StageText(last, true, after));
  }

  lemma SingleStage(commands: seq<seq<string>>, after: bool)
    requires |commands| == 1
    ensures Pipeline(commands) + Gap(after) == StageText(commands[0], false, after)
  {
    hide Shell.CommandLine;
    var line := Shell.CommandLine(commands[0]);
    assert Pipeline(commands) == line;
    assert Gap(false) + line == line;
  }

  lemma StageTail(words: seq<string>, after: bool)
    ensures StageText(words, true, after) == StageText(words, true, false) + Gap(after)
  {}

  lemma Reassociate(a: string, b: string, c: string)
    ensures a + b + c == a + (b + c)
  {}

  lemma PipelineTail(commands: seq<seq<string>>, after: bool)
    requires |commands| > 1
    ensures Pipeline(commands) + Gap(after) ==
            Pipeline(commands[..|commands| - 1]) + Gap(true) + ['|'] + StageText(commands[|commands| - 1], true, after)
  {
    PipelineSnoc(commands);
    hide Pipeline, StageText, Gap;
    var last := commands[|commands| - 1];
    StageTail(last, after);
    Reassociate(Pipeline(commands[..|commands| - 1]) + Gap(true) + ['|'], StageText(last, true, false), Gap(after));
  }

  lemma QuoteFreePipelineReadsBack(commands: seq<seq<string>>)
    requires Renderable(commands)
    ensures TokensOfAll(Stages(Pipeline(commands))) == commands
  {
    hide Pipeline, Tokens, StageTexts, CutAll, NoSingleQuote;
    var texts := StageTexts(commands, false);
    assert Stages(Pipeline(commands)) == texts by {
      PipelineCuts(Cut([], "", None), commands, false);
      assert Pipeline(commands) + Gap(false) == Pipeline(commands);
      assert texts == texts[..|texts| - 1] + [texts[|texts| - 1]];
    }
    forall i | 0 <= i < |commands| ensures Tokens(texts[i]) == commands[i] { StageTextTokens(commands, i); }
  }

  lemma StageTextTokens(commands: seq<seq<string>>, i: nat)
    requires i < |commands| && NoSingleQuote(commands[i])
    ensures Tokens(StageTexts(commands, false)[i]) == commands[i]
  {
    hide Tokens, StageText, NoSingleQuote;
    StageTokens(commands[i], i > 0, i < |commands| - 1 || false);
  }

  // ----- and a pipeline with a single quote never does -----

  function BackslashesOfAll(commands: seq<seq<string>>): nat {
    if commands == [] then 0 else BackslashesOfAll(commands[..|commands| - 1]) + AllBackslashes(commands[|commands| - 1])
  }

  lemma TextHasNone(s: string)
    requires s == "|" || s == " | "
    ensures Backslashes(s) == 0
  {
    if s == "|" {
      assert s[..0] == "";
    } else {
      assert s[..2][..1] == s[..1] && s[..1][..0] == "";
      assert Backslashes(s[..1]) == 0 && Backslashes(s[..2]) == 0;
    }
  }

  lemma {:induction false} PipingKeepsBackslashes(stages: seq<string>)
    ensures Backslashes(Piped(stages)) == AllBackslashes(stages)
  {
    hide Backslashes;
    if stages == [] {
      NoStagesNoBackslashes();
    } else {
      var init, last := stages[..|stages| - 1], stages[|stages| - 1];
      PipingKeepsBackslashes(init);
      if |stages| > 1 {
        TextHasNone("|");
        BackslashesConcat(Piped(init), "|");
        BackslashesConcat(Piped(init) + "|", last);
      }
    }
  }

  lemma NoStagesNoBackslashes()
    ensures Backslashes("") == 0
  {}

  lemma {:induction false} TokensOfAllKeepBackslashes(stages: seq<string>)
    ensures BackslashesOfAll(TokensOfAll(stages)) == AllBackslashes(stages)
  {
    hide Tokens, Backslashes;
    if stages == [] {
    } else {
      var init, last := stages[..|stages| - 1], stages[|stages| - 1];
      TokensOfAllKeepBackslashes(init);
      TokensKeepBackslashes(last);
      assert TokensOfAll(stages)[..|stages| - 1] == TokensOfAll(init);
    }
  }

  lemma {:induction false} PipelineAddsBackslashes(commands: seq<seq<string>>)
    ensures Backslashes(Pipeline(commands)) >= BackslashesOfAll(commands)
    ensures (exists i :: 0 <= i < |commands| && !NoSingleQuote(commands[i])) ==>
              Backslashes(Pipeline(commands)) > BackslashesOfAll(commands)
  {
    hide Backslashes, NoSingleQuote, Shell.CommandLine;
    if commands == [] {
      NoStagesNoBackslashes();
    } else {
      var init, last := commands[..|commands| - 1], commands[|commands| - 1];
      PipelineAddsBackslashes(init);
      CommandLineAddsBackslashes(last);
      assert forall i :: 0 <= i < |init| ==> init[i] == commands[i];
      if |commands| > 1 {
        TextHasNone(" | ");
        BackslashesConcat(Pipeline(init), " | ");
        BackslashesConcat(Pipeline(init) + " | ", Shell.CommandLine(last));
      }
    }
  }

  /** Splitting a rendered pipeline and tokenizing its stages gives the commands back exactly when
      there is a command and no word holds a single quote. No bar inside a quoted word cuts it. */
  lemma PipelineReadsBack(commands: seq<seq<string>>)
    ensures TokensOfAll(Stages(Pipeline(commands))) == commands <==> Renderable(commands)
  {
    hide Pipeline, Stages, Tokens;
    if Renderable(commands) {
      QuoteFreePipelineReadsBack(commands);
    } else {
      var line := Pipeline(commands);
      PipelineAddsBackslashes(commands);
      StagesRejoin(line);
      PipingKeepsBackslashes(Stages(line));
      TokensOfAllKeepBackslashes(Stages(line));
      SomeStage(line);
    }
  }

  lemma SomeStage(line: string)
    ensures Stages(line) != []
  {}
}
