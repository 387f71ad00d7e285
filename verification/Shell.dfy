/** Quoting a value so that a shell hands it back intact. */
module Shell {
  import opened Wrappers

  predicate IsBareChar(c: char) {
    'a' <= c <= 'z' || 'A' <= c <= 'Z' || '0' <= c <= '9' || c in "_-./:@+=,"
  }

  predicate IsBare(name: string) {
    name != "" && forall i :: 0 <= i < |name| ==> IsBareChar(name[i])
  }

  /** Each single quote closes the quotation, stands behind a backslash, and opens it again. */
  function EscapeChar(c: char): string {
    if c == '\'' then "'\\''" else [c]
  }

  function EscapeAll(s: string): string {
    if s == "" then "" else EscapeAll(s[..|s| - 1]) + EscapeChar(s[|s| - 1])
  }

  function Quote(name: string): string {
    if IsBare(name) then name else "'" + EscapeAll(name) + "'"
  }

  /** A command line: the quoted words with one space between two. */
  function CommandLine(words: seq<string>): string {
    if words == [] then ""
    else if |words| == 1 then Quote(words[0])
    else CommandLine(words[..|words| - 1]) + " " + Quote(words[|words| - 1])
  }

  // ----- reading words as a shell does -----

  datatype Mode = Plain | InSingle | AfterBackslash
  datatype Reading = Reading(words: seq<string>, cur: string, started: bool, mode: Mode)

  /** Characters that do more than stand for themselves when they are not quoted. What they do
      is outside the words read here. */
  predicate IsSpecial(c: char) {
    c in "|&;<>()$`\"*?[#~\n"
  }

  /** One character, by the rules for backslash, single quotes and token recognition in sections
      2.2.1, 2.2.2 and 2.3 of the Shell Command Language of IEEE Std 1003.1. */
  function Read(r: Reading, c: char): Option<Reading> {
    match r.mode
    case InSingle =>
      if c == '\'' then Some(r.(mode := Plain)) else Some(r.(cur := r.cur + [c]))
    case AfterBackslash =>
      if c == '\n' then Some(r.(mode := Plain))
      else Some(r.(cur := r.cur + [c], started := true, mode := Plain))
    case Plain =>
      if c == ' ' || c == '\t' then
        Some(if r.started then Reading(r.words + [r.cur], "", false, Plain) else r)
      else if c == '\'' then Some(r.(started := true, mode := InSingle))
      else if c == '\\' then Some(r.(mode := AfterBackslash))
      else if IsSpecial(c) then None
      else Some(r.(cur := r.cur + [c], started := true))
  }

  function ReadAll(r: Reading, s: string): Option<Reading> {
    if s == "" then Some(r)
    else
      match ReadAll(r, s[..|s| - 1])
      case None => None
      case Some(r') => Read(r', s[|s| - 1])
  }

  function ShellWords(s: string): Option<seq<string>> {
    match ReadAll(Reading([], "", false, Plain), s)
    case None => None
    case Some(r) => if r.mode != Plain then None else Some(if r.started then r.words + [r.cur] else r.words)
  }

  lemma {:induction false} ReadConcat(r: Reading, a: string, b: string)
    ensures ReadAll(r, a + b) == match ReadAll(r, a) case None => None case Some(r') => ReadAll(r', b)
  {
    hide Read;
    if b == "" {
      assert a + b == a;
    } else {
      ReadConcat(r, a, b[..|b| - 1]);
      assert (a + b)[..|a + b| - 1] == a + b[..|b| - 1];
    }
  }

  lemma ReadOne(r: Reading, c: char)
    ensures ReadAll(r, [c]) == Read(r, c)
  {}

  /** Inside single quotes an escaped character is read back as itself. */
  lemma ReadEscapedChar(r: Reading, c: char)
    requires r.mode == InSingle && r.started
    ensures ReadAll(r, EscapeChar(c)) == Some(r.(cur := r.cur + [c]))
  {
    if c == '\'' {
      var closed := r.(mode := Plain);
      ReadOne(r, '\'');
      ReadConcat(r, ['\''], ['\\']);
      ReadOne(closed, '\\');
      ReadConcat(r, ['\''] + ['\\'], ['\'']);
      ReadOne(closed.(mode := AfterBackslash), '\'');
      ReadConcat(r, ['\''] + ['\\'] + ['\''], ['\'']);
      ReadOne(closed.(cur := r.cur + [c]), '\'');
      assert EscapeChar(c) == ['\''] + ['\\'] + ['\''] + ['\''];
    } else {
      ReadOne(r, c);
    }
  }

  lemma {:induction false} ReadEscaped(r: Reading, s: string)
    requires r.mode == InSingle && r.started
    ensures ReadAll(r, EscapeAll(s)) == Some(r.(cur := r.cur + s))
  {
    hide EscapeChar, Read;
    if s == "" {
      assert r.cur + s == r.cur;
    } else {
      var init, last := s[..|s| - 1], s[|s| - 1];
      ReadEscaped(r, init);
      ReadConcat(r, EscapeAll(init), EscapeChar(last));
      ReadEscapedChar(r.(cur := r.cur + init), last);
      assert r.cur + s == r.cur + init + [last];
    }
  }

  lemma ReadBareChar(r: Reading, c: char)
    requires r.mode == Plain && IsBareChar(c)
    ensures Read(r, c) == Some(r.(cur := r.cur + [c], started := true))
  {}

  lemma {:induction false} ReadBare(r: Reading, s: string)
    requires r.mode == Plain && forall i :: 0 <= i < |s| ==> IsBareChar(s[i])
    ensures ReadAll(r, s) == Some(r.(cur := r.cur + s, started := r.started || s != ""))
  {
    hide Read, IsBareChar;
    if s == "" {
      assert r.cur + s == r.cur;
    } else {
      var init, last := s[..|s| - 1], s[|s| - 1];
      ReadBare(r, init);
      ReadBareChar(r.(cur := r.cur + init, started := r.started || init != ""), last);
      assert r.cur + s == r.cur + init + [last];
    }
  }

  lemma ReadQuoted(r: Reading, name: string)
    requires r.mode == Plain && r.cur == "" && !r.started
    ensures ReadAll(r, Quote(name)) == Some(r.(cur := name, started := true))
  {
    if IsBare(name) {
      ReadBare(r, name);
      assert r.cur + name == name;
    } else {
      hide IsBare, EscapeAll;
      var inside := r.(started := true, mode := InSingle);
      ReadOne(r, '\'');
      ReadConcat(r, ['\''], EscapeAll(name));
      ReadEscaped(inside, name);
      ReadConcat(r, ['\''] + EscapeAll(name), ['\'']);
      ReadOne(inside.(cur := inside.cur + name), '\'');
      assert Quote(name) == ['\''] + EscapeAll(name) + ['\''];
      assert inside.cur + name == name;
    }
  }

  lemma {:induction false} ReadCommandLine(words: seq<string>)
    requires words != []
    ensures ReadAll(Reading([], "", false, Plain), CommandLine(words)) ==
            Some(Reading(words[..|words| - 1], words[|words| - 1], true, Plain))
  {
    hide Quote;
    var start := Reading([], "", false, Plain);
    var init, last := words[..|words| - 1], words[|words| - 1];
    if |words| == 1 {
      ReadQuoted(start, last);
    } else {
      ReadCommandLine(init);
      var r := Reading(init[..|init| - 1], init[|init| - 1], true, Plain);
      ReadConcat(start, CommandLine(init), [' ']);
      ReadOne(r, ' ');
      assert r.words + [r.cur] == init;
      ReadConcat(start, CommandLine(init) + [' '], Quote(last));
      ReadQuoted(Reading(init, "", false, Plain), last);
    }
  }

  /** Whatever the words hold, a shell reads the command line back as exactly those words. */
  lemma ShellReadsBack(words: seq<string>)
    ensures ShellWords(CommandLine(words)) == Some(words)
  {
    hide Read, Quote;
    if words != [] {
      ReadCommandLine(words);
      hide CommandLine, ReadAll;
      assert words == words[..|words| - 1] + [words[|words| - 1]];
    }
  }

  /** One quoted value on its own is one word. */
  lemma QuotedIsOneWord(name: string)
    ensures ShellWords(Quote(name)) == Some([name])
  {
    ShellReadsBack([name]);
  }

  /** A value is written as it is exactly when it is not empty and has only characters a shell reads
      bare; every other one is written between single quotes. */
  lemma BareOrQuoted(name: string)
    ensures Quote(name) == name <==>
      name != "" && forall i :: 0 <= i < |name| ==>
        'a' <= name[i] <= 'z' || 'A' <= name[i] <= 'Z' || '0' <= name[i] <= '9' || name[i] in "_-./:@+=,"
    ensures Quote(name) != name ==> |Quote(name)| >= 2 && Quote(name)[0] == '\'' == Quote(name)[|Quote(name)| - 1]
  {
    if !IsBare(name) { QuotedIsLonger(name); }
  }

  lemma {:induction false} QuotedIsLonger(s: string)
    ensures |EscapeAll(s)| >= |s|
  {
    if s == "" {
    } else {
      QuotedIsLonger(s[..|s| - 1]);
    }
  }
}
