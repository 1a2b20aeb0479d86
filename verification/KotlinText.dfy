/** A text as a Kotlin string literal (`_s` of `bajutsu/codegen/uiautomator.py`), read back by Kotlin's rules. */
module KotlinText {
  import opened Globs
  import GlobRegex

  // ----- the literal, one replacement after the other

  /** `text.replace(c, to)`. */
  function Replace(text: string, c: char, to: string): string {
    if text == "" then "" else (if text[0] == c then to else [text[0]]) + Replace(text[1..], c, to)
  }

  /** The six replacements of `_s`, in their order. */
  function Escaped(text: string): string {
    Replace(Replace(Replace(Replace(Replace(Replace(text, '\\', "\\\\"), '"', "\\\""), '$', "\\$"), '\n', "\\n"), '\r', "\\r"),
      '\t', "\\t")
  }

  function Literal(text: string): string {
    "\"" + Escaped(text) + "\""
  }

  // ----- what Kotlin reads

  datatype Reading = Broken | Reading(value: string, rest: string)

  function Cons(c: char, r: Reading): Reading {
    match r
    case Broken => Broken
    case Reading(value, rest) => Reading([c] + value, rest)
  }

  /** What a letter behind a backslash stands for; a code point by number is none of those `_s` writes. */
  function Unescaped(c: char): Option<char> {
    match c
    case 't' => Some('\t')
    case 'b' => Some('\U{08}')
    case 'n' => Some('\n')
    case 'r' => Some('\r')
    case '\'' => Some(c)
    case '"' => Some(c)
    case '\\' => Some(c)
    case '$' => Some(c)
    case _ => None
  }

  predicate StartsName(c: char) {
    'a' <= c <= 'z' || 'A' <= c <= 'Z' || c == '_' || c == '`' || c == '{' || c >= '\U{80}'
  }

  /** The rest of a string literal, up to its quote: a line break breaks it, and a dollar before a name or a brace
      starts a template. */
  function ReadKotlin(s: string): Reading {
    if s == "" || s[0] == '\n' || s[0] == '\r' then Broken
    else if s[0] == '"' then Reading("", s[1..])
    else if s[0] == '\\' then
      if |s| == 1 || Unescaped(s[1]).None? then Broken else Cons(Unescaped(s[1]).value, ReadKotlin(s[2..]))
    else if s[0] == '$' && |s| > 1 && StartsName(s[1]) then Broken
    else Cons(s[0], ReadKotlin(s[1..]))
  }

  function ReadLiteral(s: string): Reading {
    if s != "" && s[0] == '"' then ReadKotlin(s[1..]) else Broken
  }

  // ----- one replacement at a time is one character at a time

  function EscapedChar(c: char): string {
    if c in "\\\"$" then ['\\', c]
    else if c == '\n' then "\\n"
    else if c == '\r' then "\\r"
    else if c == '\t' then "\\t"
    else [c]
  }

  function CharByChar(text: string): string {
    if text == "" then "" else EscapedChar(text[0]) + CharByChar(text[1..])
  }

  lemma {:induction false} ReplaceConcat(a: string, b: string, c: char, to: string)
    ensures Replace(a + b, c, to) == Replace(a, c, to) + Replace(b, c, to)
  {
    if a == "" {
      assert a + b == b;
    } else {
      ReplaceConcat(a[1..], b, c, to);
      assert (a + b)[1..] == a[1..] + b && (a + b)[0] == a[0];
      Grouped(if a[0] == c then to else [a[0]], Replace(a[1..], c, to), Replace(b, c, to));
    }
  }

  lemma Grouped(a: string, b: string, c: string)
    ensures (a + b) + c == a + (b + c)
  {
  }

  lemma ReplaceOne(x: char, c: char, to: string)
    ensures Replace([x], c, to) == if x == c then to else [x]
  {
    assert [x][1..] == "";
  }

  lemma ReplaceTwo(x: char, y: char, c: char, to: string)
    requires x != c
    ensures Replace([x, y], c, to) == [x] + if y == c then to else [y]
  {
    ReplaceOne(x, c, to);
    ReplaceOne(y, c, to);
    ReplaceConcat([x], [y], c, to);
    assert [x] + [y] == [x, y];
  }

  lemma EscapedConcat(a: string, b: string)
    ensures Escaped(a + b) == Escaped(a) + Escaped(b)
  {
    ReplaceConcat(a, b, '\\', "\\\\");
    var a1, b1 := Replace(a, '\\', "\\\\"), Replace(b, '\\', "\\\\");
    ReplaceConcat(a1, b1, '"', "\\\"");
    var a2, b2 := Replace(a1, '"', "\\\""), Replace(b1, '"', "\\\"");
    ReplaceConcat(a2, b2, '$', "\\$");
    var a3, b3 := Replace(a2, '$', "\\$"), Replace(b2, '$', "\\$");
    ReplaceConcat(a3, b3, '\n', "\\n");
    var a4, b4 := Replace(a3, '\n', "\\n"), Replace(b3, '\n', "\\n");
    ReplaceConcat(a4, b4, '\r', "\\r");
    ReplaceConcat(Replace(a4, '\r', "\\r"), Replace(b4, '\r', "\\r"), '\t', "\\t");
  }

  /** A pair that is none of the later replacements' business. */
  lemma PairStays(y: char)
    requires y in "\\\"$nrt"
    ensures y != '"' && y != '$' ==> Replace(['\\', y], '"', "\\\"") == ['\\', y]
    ensures y != '$' ==> Replace(['\\', y], '$', "\\$") == ['\\', y]
    ensures Replace(['\\', y], '\n', "\\n") == ['\\', y]
    ensures Replace(['\\', y], '\r', "\\r") == ['\\', y]
    ensures Replace(['\\', y], '\t', "\\t") == ['\\', y]
  {
    ReplaceTwo('\\', y, '"', "\\\"");
    ReplaceTwo('\\', y, '$', "\\$");
    ReplaceTwo('\\', y, '\n', "\\n");
    ReplaceTwo('\\', y, '\r', "\\r");
    ReplaceTwo('\\', y, '\t', "\\t");
    assert ['\\'] + [y] == ['\\', y];
  }

  /** The last five replacements leave a character they do not look for. */
  lemma PlainStays(c: char)
    requires c !in "\\\"$\n\r\t"
    ensures Escaped([c]) == [c]
  {
    ReplaceOne(c, '\\', "\\\\");
    ReplaceOne(c, '"', "\\\"");
    ReplaceOne(c, '$', "\\$");
    ReplaceOne(c, '\n', "\\n");
    ReplaceOne(c, '\r', "\\r");
    ReplaceOne(c, '\t', "\\t");
  }

  lemma MarkIsPaired(c: char)
    requires c == '\\' || c == '"' || c == '$'
    ensures Escaped([c]) == ['\\', c]
  {
    ReplaceOne(c, '\\', "\\\\");
    ReplaceOne(c, '"', "\\\"");
    ReplaceOne(c, '$', "\\$");
    PairStays(c);
    assert "\\\\" == ['\\', '\\'] && "\\\"" == ['\\', '"'] && "\\$" == ['\\', '$'];
  }

  lemma BreakIsPaired(c: char)
    requires c == '\n' || c == '\r' || c == '\t'
    ensures Escaped([c]) == EscapedChar(c)
  {
    ReplaceOne(c, '\\', "\\\\");
    ReplaceOne(c, '"', "\\\"");
    ReplaceOne(c, '$', "\\$");
    ReplaceOne(c, '\n', "\\n");
    if c == '\n' {
      PairStays('n');
      assert "\\n" == ['\\', 'n'];
    } else {
      ReplaceOne(c, '\r', "\\r");
      if c == '\r' {
        PairStays('r');
        assert "\\r" == ['\\', 'r'];
      } else {
        ReplaceOne(c, '\t', "\\t");
      }
    }
  }

  lemma EscapedOne(c: char)
    ensures Escaped([c]) == EscapedChar(c)
  {
    if c in "\\\"$" {
      MarkIsPaired(c);
    } else if c in "\n\r\t" {
      BreakIsPaired(c);
    } else {
      PlainStays(c);
    }
  }

  lemma {:induction false} EscapedIsCharByChar(text: string)
    ensures Escaped(text) == CharByChar(text)
  {
    if text != "" {
      EscapedIsCharByChar(text[1..]);
      EscapedOne(text[0]);
      EscapedConcat([text[0]], text[1..]);
      assert [text[0]] + text[1..] == text;
    }
  }

  // ----- the round trip

  lemma CharReads(c: char, more: string)
    requires more != ""
    ensures ReadKotlin(EscapedChar(c) + more) == Cons(c, ReadKotlin(more))
  {
    var e := EscapedChar(c);
    assert (e + more)[|e|..] == more;
    assert |e| == 2 ==> (e + more)[1] == e[1] && Unescaped(e[1]) == Some(c);
  }

  lemma {:induction false} TextReads(text: string, rest: string)
    ensures ReadKotlin(CharByChar(text) + ("\"" + rest)) == Reading(text, rest)
  {
    var close := "\"" + rest;
    if text == "" {
      assert "" + close == close && close[1..] == rest;
    } else {
      TextReads(text[1..], rest);
      CharReads(text[0], CharByChar(text[1..]) + close);
      Grouped(EscapedChar(text[0]), CharByChar(text[1..]), close);
      HeadAndTail(text);
    }
  }

  lemma HeadAndTail(text: string)
    requires text != ""
    ensures [text[0]] + text[1..] == text
  {
  }

  /** Kotlin reads every literal as the text it was written for, and stops where it ends. */
  lemma LiteralReadsBack(text: string, rest: string)
    ensures ReadLiteral(Literal(text) + rest) == Reading(text, rest)
  {
    EscapedIsCharByChar(text);
    var s := Literal(text) + rest;
    assert s[0] == '"' && s[1..] == CharByChar(text) + ("\"" + rest);
    TextReads(text, rest);
  }

  const ID_PREFIX := "(.*:id/)?"

  /** The emitted pattern: the literal Kotlin compiles is the prefix and a text that is read as one item for each glob
      character, so what `GlobRegex.RegexIff` says of the compiled pattern holds of the emitted one. */
  lemma PatternReadsBack(g: string, rest: string)
    requires GlobRegex.GlobToRegex(g).Some?
    ensures ReadLiteral(Literal(ID_PREFIX + GlobRegex.GlobToRegex(g).value) + rest)
         == Reading(ID_PREFIX + GlobRegex.RegexBody(g), rest)
    ensures GlobRegex.ReadRegex(GlobRegex.RegexBody(g)) == Some(GlobRegex.Items(g))
  {
    LiteralReadsBack(ID_PREFIX + GlobRegex.RegexBody(g), rest);
    GlobRegex.RegexReads(g);
  }
}
