/** String literals as both printers write them: five whole-string replacements between quotes. */
module Escape {
  import opened Toml

  function Replace(s: string, c: char, text: string): string {
    if s == [] then [] else (if s[0] == c then text else [s[0]]) + Replace(s[1..], c, text)
  }

  /** The replacements in the order they are made: the backslash comes first. */
  function EscapePasses(s: string): string {
    Replace(Replace(Replace(Replace(Replace(s, '\\', "\\\\"), '"', "\\\""), '\n', "\\n"), '\r', "\\r"), '\t', "\\t")
  }

  /** The escape of one character. */
  function EscapeChar(c: char): string {
    match c
    case '\\' => ['\\', '\\']
    case '"' => ['\\', '"']
    case '\n' => ['\\', 'n']
    case '\r' => ['\\', 'r']
    case '\t' => ['\\', 't']
    case _ => [c]
  }

  function EscapeAll(s: string): string {
    if s == [] then [] else EscapeChar(s[0]) + EscapeAll(s[1..])
  }

  lemma {:induction false} ReplaceAppend(a: string, b: string, c: char, text: string)
    ensures Replace(a + b, c, text) == Replace(a, c, text) + Replace(b, c, text)
  {
    if a == [] {
      assert a + b == b;
    } else {
      assert (a + b)[1..] == a[1..] + b;
      ReplaceAppend(a[1..], b, c, text);
    }
  }

  lemma ReplaceTwo(x: char, y: char, c: char, text: string)
    ensures Replace([x], c, text) == if x == c then text else [x]
    ensures Replace([x, y], c, text) == Replace([x], c, text) + Replace([y], c, text)
  {
    assert [x][1..] == [] && [x, y] == [x] + [y];
    ReplaceAppend([x], [y], c, text);
  }

  lemma PassesAppend(a: string, b: string)
    ensures EscapePasses(a + b) == EscapePasses(a) + EscapePasses(b)
  {
    var a1, b1 := Replace(a, '\\', "\\\\"), Replace(b, '\\', "\\\\");
    ReplaceAppend(a, b, '\\', "\\\\");
    var a2, b2 := Replace(a1, '"', "\\\""), Replace(b1, '"', "\\\"");
    ReplaceAppend(a1, b1, '"', "\\\"");
    var a3, b3 := Replace(a2, '\n', "\\n"), Replace(b2, '\n', "\\n");
    ReplaceAppend(a2, b2, '\n', "\\n");
    var a4, b4 := Replace(a3, '\r', "\\r"), Replace(b3, '\r', "\\r");
    ReplaceAppend(a3, b3, '\r', "\\r");
    ReplaceAppend(a4, b4, '\t', "\\t");
  }

  /** No pass rewrites what an earlier one inserted. */
  lemma PassesOnChar(c: char)
    ensures EscapePasses([c]) == EscapeChar(c)
  {
    var e := EscapeChar(c);
    ReplaceTwo(c, c, '\\', "\\\\");
    ReplaceTwo(c, c, '"', "\\\"");
    ReplaceTwo(c, c, '\n', "\\n");
    ReplaceTwo(c, c, '\r', "\\r");
    ReplaceTwo(c, c, '\t', "\\t");
    if |e| == 2 {
      ReplaceTwo(e[0], e[1], '"', "\\\"");
      ReplaceTwo(e[0], e[1], '\n', "\\n");
      ReplaceTwo(e[0], e[1], '\r', "\\r");
      ReplaceTwo(e[0], e[1], '\t', "\\t");
      ReplaceTwo(e[1], e[1], '"', "\\\"");
      ReplaceTwo(e[1], e[1], '\n', "\\n");
      ReplaceTwo(e[1], e[1], '\r', "\\r");
      ReplaceTwo(e[1], e[1], '\t', "\\t");
      assert e == [e[0], e[1]];
    }
  }

  /** The five passes are one pass over the characters. */
  lemma {:induction false} PassesAreOnePass(s: string)
    ensures EscapePasses(s) == EscapeAll(s)
  {
    if s != [] {
      assert s == [s[0]] + s[1..];
      PassesAppend([s[0]], s[1..]);
      PassesOnChar(s[0]);
      PassesAreOnePass(s[1..]);
    }
  }

  // ---- reading --------------------------------------------------------------------------

  function UnescapeChar(c: char): Option<char> {
    match c
    case '\\' => Some('\\')
    case '"' => Some('"')
    case 'n' => Some('\n')
    case 'r' => Some('\r')
    case 't' => Some('\t')
    case _ => None
  }

  /** A literal and what follows it. */
  datatype Literal = Literal(text: string, rest: string)

  /** Reads up to the closing quote, undoing the escapes. */
  function ReadLiteral(s: string): Option<Literal> {
    if s == [] then None
    else if s[0] == '"' then Some(Literal([], s[1..]))
    else if s[0] == '\\' then
      if |s| < 2 || UnescapeChar(s[1]).None? then None
      else
        var l := ReadLiteral(s[2..]);
        if l.None? then None else Some(Literal([UnescapeChar(s[1]).value] + l.value.text, l.value.rest))
    else
      var l := ReadLiteral(s[1..]);
      if l.None? then None else Some(Literal([s[0]] + l.value.text, l.value.rest))
  }

  function Prefixed(c: char, l: Option<Literal>): Option<Literal> {
    if l.None? then None else Some(Literal([c] + l.value.text, l.value.rest))
  }

  lemma ReadPlain(c: char, tail: string)
    requires c != '"' && c != '\\'
    ensures ReadLiteral([c] + tail) == Prefixed(c, ReadLiteral(tail))
  {
    assert ([c] + tail)[1..] == tail;
  }

  lemma ReadPair(x: char, c: char, tail: string)
    requires UnescapeChar(x) == Some(c)
    ensures ReadLiteral(['\\', x] + tail) == Prefixed(c, ReadLiteral(tail))
  {
    assert (['\\', x] + tail)[2..] == tail;
  }

  /** An escaped character is read as one character, whatever follows. */
  lemma ReadEscaped(c: char, tail: string)
    ensures ReadLiteral(EscapeChar(c) + tail) == Prefixed(c, ReadLiteral(tail))
  {
    match c
    case '\\' => ReadPair('\\', c, tail);
    case '"' => ReadPair('"', c, tail);
    case '\n' => ReadPair('n', c, tail);
    case '\r' => ReadPair('r', c, tail);
    case '\t' => ReadPair('t', c, tail);
    case _ => ReadPlain(c, tail);
  }

  lemma {:induction false} EscapedReadsBack(s: string, rest: string)
    ensures ReadLiteral(EscapeAll(s) + ['"'] + rest) == Some(Literal(s, rest))
  {
    if s == [] {
      assert (EscapeAll(s) + ['"'] + rest)[1..] == rest;
    } else {
      var tail := EscapeAll(s[1..]) + ['"'] + rest;
      EscapedReadsBack(s[1..], rest);
      ReadEscaped(s[0], tail);
      assert EscapeAll(s) + ['"'] + rest == EscapeChar(s[0]) + tail;
      assert [s[0]] + s[1..] == s;
    }
  }

  /** Whatever the string, its literal ends where it was closed and reads back as the string. */
  lemma LiteralReadsBack(s: string, rest: string)
    ensures ReadLiteral(EscapePasses(s) + ['"'] + rest) == Some(Literal(s, rest))
  {
    PassesAreOnePass(s);
    EscapedReadsBack(s, rest);
  }

  /** Different strings have different literals, and neither is a prefix of the other. */
  lemma LiteralsDiffer(s: string, t: string, rest: string, rest': string)
    requires EscapePasses(s) + ['"'] + rest == EscapePasses(t) + ['"'] + rest'
    ensures s == t && rest == rest'
  {
    LiteralReadsBack(s, rest);
    LiteralReadsBack(t, rest');
  }

  /** The five escapes as they are written; every other character stands for itself. */
  lemma EscapesAre(c: char)
    ensures EscapePasses([c]) ==
            if c == '\\' then "\\\\" else if c == '"' then "\\\"" else if c == '\n' then "\\n"
            else if c == '\r' then "\\r" else if c == '\t' then "\\t" else [c]
  {
    PassesAreOnePass([c]);
    assert [c][1..] == [] && EscapeAll([c]) == EscapeChar(c) + EscapeAll([c][1..]);
    assert EscapeAll([c]) == EscapeChar(c);
  }
}
