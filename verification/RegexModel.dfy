/** The fragment of regular-expression syntax that a compiled case pattern uses, read and
    matched as the `regex` crate documents it: `.` is any character but a line feed, `^` and `$`
    anchor the whole text, and a backslash makes a metacharacter literal. */
module RegexModel {
  import opened Wrappers

  datatype Atom = AnyButNewline | Literal(c: char) {
    predicate Accepts(x: char) {
      match this
      case AnyButNewline => x != '\n'
      case Literal(c) => x == c
    }
  }

  datatype Item = Item(atom: Atom, starred: bool)
  datatype Regex = Regex(fromStart: bool, items: seq<Item>, toEnd: bool)

  /** The characters `regex::escape` puts a backslash before. */
  predicate IsMeta(c: char) {
    c in "\\.+*?()|[]{}^$#&-~"
  }

  /** The characters that mean something other than themselves when written bare. */
  predicate IsSyntax(c: char) {
    c in "\\.+*?()|[{^$"
  }

  function Escape(c: char): string {
    if IsMeta(c) then ['\\', c] else [c]
  }

  /** One atom and the text after it. */
  function ReadAtom(s: string): Option<(Atom, string)>
    requires s != ""
  {
    if s[0] == '.' then Some((AnyButNewline, s[1..]))
    else if s[0] == '\\' then
      if |s| > 1 && IsMeta(s[1]) then Some((Literal(s[1]), s[2..])) else None
    else if IsSyntax(s[0]) then None
    else Some((Literal(s[0]), s[1..]))
  }

  /** Items up to the end of the text, and whether it closes with an anchor. */
  function ReadItems(s: string): Option<(seq<Item>, bool)>
    decreases |s|
  {
    if s == "" then Some(([], false))
    else if s == "$" then Some(([], true))
    else
      match ReadAtom(s)
      case None => None
      case Some((atom, rest)) =>
        var starred := rest != "" && rest[0] == '*';
        var after := if starred then rest[1..] else rest;
        if starred && after != "" && after[0] in "*+?{" then None
        else
          match ReadItems(after)
          case None => None
          case Some((items, toEnd)) => Some(([Item(atom, starred)] + items, toEnd))
  }

  function ReadRegex(s: string): Option<Regex> {
    var fromStart := s != "" && s[0] == '^';
    match ReadItems(if fromStart then s[1..] else s)
    case None => None
    case Some((items, toEnd)) => Some(Regex(fromStart, items, toEnd))
  }

  /** The items match exactly this text. */
  predicate MatchesExactly(items: seq<Item>, s: string)
    decreases |items|, |s|
  {
    if items == [] then s == ""
    else if items[0].starred then
      MatchesExactly(items[1..], s) || (s != "" && items[0].atom.Accepts(s[0]) && MatchesExactly(items, s[1..]))
    else
      s != "" && items[0].atom.Accepts(s[0]) && MatchesExactly(items[1..], s[1..])
  }

  /** An unanchored search: some stretch of the text matches, held to the ends by the anchors. */
  predicate IsMatch(re: Regex, s: string) {
    exists i, j :: 0 <= i <= j <= |s| && (re.fromStart ==> i == 0) && (re.toEnd ==> j == |s|)
                   && MatchesExactly(re.items, s[i..j])
  }
}
