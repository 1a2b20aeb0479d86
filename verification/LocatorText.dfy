/** The text of a compiled selector as it is pasted into a generated test (`bajutsu/codegen/playwright.py`), read
    back through the JavaScript string and the CSS string it stands in. */
module LocatorText {
  import opened Globs

  function EscapedChar(c: char): string {
    if c == '\\' || c == '"' then ['\\', c] else [c]
  }

  /** `_css_attr_value`. */
  function Escaped(core: string): string {
    if core == "" then "" else EscapedChar(core[0]) + Escaped(core[1..])
  }

  function Sign(op: Op): string {
    match op
    case Equals => "="
    case Prefix => "^="
    case Suffix => "$="
    case Contains => "*="
  }

  /** The selector as it is pasted between single quotes. */
  function PastedText(css: Css): string {
    "[data-testid" + Sign(css.op) + "\"" + Escaped(css.core) + "\"]"
  }

  datatype Reading = Broken | Reading(value: string, rest: string)

  /** The rest of a single-quoted JavaScript string, up to its quote. The pasted text escapes nothing but
      backslashes and quotes. */
  function ReadJs(s: string): Reading {
    if s == "" || s[0] == '\n' || s[0] == '\r' then Broken
    else if s[0] == '\'' then Reading("", s[1..])
    else if s[0] == '\\' then
      if |s| > 1 && s[1] in "\\\"'" then Cons(s[1], ReadJs(s[2..])) else Broken
    else Cons(s[0], ReadJs(s[1..]))
  }

  function Cons(c: char, r: Reading): Reading {
    match r
    case Broken => Broken
    case Reading(value, rest) => Reading([c] + value, rest)
  }

  predicate IsHex(c: char) {
    '0' <= c <= '9' || 'a' <= c <= 'f' || 'A' <= c <= 'F'
  }

  /** How many hex digits an escape takes, six at most. */
  function HexRun(s: string, limit: nat): (n: nat)
    ensures n <= limit && n <= |s|
  {
    if limit > 0 && s != "" && IsHex(s[0]) then 1 + HexRun(s[1..], limit - 1) else 0
  }

  /** The rest of a double-quoted CSS string, up to its quote (section 4.3.5 of CSS Syntax Level 3): a newline
      breaks it, a backslash takes up to six hex digits and a space, a newline, or one character. `point` is the
      character a hex escape stands for. */
  function ReadCss(s: string, point: string -> char): Reading
    decreases |s|
  {
    if s == "" || s[0] in "\n\r\U{0C}" then Broken
    else if s[0] == '"' then Reading("", s[1..])
    else if s[0] == '\\' then
      var n := HexRun(s[1..], 6);
      if n > 0 then
        var after := if 1 + n < |s| && s[1 + n] in " \t\n\r\U{0C}" then 2 + n else 1 + n;
        Cons(point(s[1..1 + n]), ReadCss(s[after..], point))
      else if |s| == 1 then Broken
      else if s[1] in "\n\r\U{0C}" then ReadCss(s[2..], point)
      else Cons(s[1], ReadCss(s[2..], point))
    else Cons(if s[0] == '\0' then '\U{FFFD}' else s[0], ReadCss(s[1..], point))
  }

  /** The selector a CSS engine reads: an operator and a quoted value, and nothing else. */
  function ReadSelector(s: string, point: string -> char): Option<Css> {
    var name := "[data-testid";
    if !(name <= s) then None
    else
      var t := s[|name|..];
      if "=\"" <= t then Closed(Equals, ReadCss(t[2..], point))
      else if "^=\"" <= t then Closed(Prefix, ReadCss(t[3..], point))
      else if "$=\"" <= t then Closed(Suffix, ReadCss(t[3..], point))
      else if "*=\"" <= t then Closed(Contains, ReadCss(t[3..], point))
      else None
  }

  function Closed(op: Op, r: Reading): Option<Css> {
    if r.Reading? && r.rest == "]" then Some(Css(op, r.value)) else None
  }

  /** What `page.locator('...')` selects by: the JavaScript string must end the argument. */
  function ReadLocator(text: string, point: string -> char): Option<Css> {
    match ReadJs(text + "')")
    case Broken => None
    case Reading(value, rest) => if rest == ")" then ReadSelector(value, point) else None
  }

  // ----- when the pasted text is read as it was meant

  predicate JsSafe(core: string) {
    forall i :: 0 <= i < |core| ==> core[i] !in "'\n\r"
  }

  predicate CssSafe(core: string) {
    forall i :: 0 <= i < |core| ==> core[i] !in "\"\\\n\r\U{0C}\0"
  }

  function Behind(value: string, r: Reading): Reading {
    match r
    case Broken => Broken
    case Reading(v, rest) => Reading(value + v, rest)
  }

  /** JavaScript takes the CSS escapes away again. */
  lemma {:induction false} JsUndoesEscape(core: string, more: string)
    requires JsSafe(core)
    ensures ReadJs(Escaped(core) + more) == Behind(core, ReadJs(more))
  {
    if core == "" {
      assert Escaped(core) + more == more;
    } else {
      JsUndoesEscape(core[1..], more);
      JsStep(core[0], Escaped(core[1..]) + more);
      Grouped(EscapedChar(core[0]), Escaped(core[1..]), more);
      BehindCons(core[0], core[1..], ReadJs(more));
      assert [core[0]] + core[1..] == core;
    }
  }

  lemma Grouped(a: string, b: string, c: string)
    ensures (a + b) + c == a + (b + c)
  {
  }

  lemma BehindCons(c: char, value: string, r: Reading)
    ensures Cons(c, Behind(value, r)) == Behind([c] + value, r)
  {
    if r.Reading? {
      Grouped([c], value, r.value);
    }
  }

  lemma JsStep(c: char, more: string)
    requires c !in "'\n\r"
    ensures ReadJs(EscapedChar(c) + more) == Cons(c, ReadJs(more))
  {
    var first := EscapedChar(c);
    assert (first + more)[|first|..] == more;
    assert c == '"' || c == '\\' ==> (first + more)[1] == c;
  }

  /** An unsafe character ends the JavaScript string early, or breaks it. */
  lemma {:induction false} JsUnsafe(core: string, more: string)
    requires !JsSafe(core)
    ensures var r := ReadJs(Escaped(core) + more); r.Broken? || |r.rest| >= |more|
  {
    var first := EscapedChar(core[0]);
    Grouped(first, Escaped(core[1..]), more);
    if core[0] !in "'\n\r" {
      assert exists i :: 0 <= i < |core[1..]| && core[1..][i] in "'\n\r" by {
        var i :| 0 <= i < |core| && core[i] in "'\n\r";
        assert core[1..][i - 1] == core[i];
      }
      JsUnsafe(core[1..], more);
      JsStep(core[0], Escaped(core[1..]) + more);
    } else {
      assert (first + (Escaped(core[1..]) + more))[1..] == Escaped(core[1..]) + more;
    }
  }

  /** The CSS string is the core exactly when the core is safe in it. */
  lemma {:induction false} CssReads(core: string, point: string -> char)
    requires CssSafe(core)
    ensures ReadCss(core + "\"]", point) == Reading(core, "]")
  {
    var s := core + "\"]";
    if core == "" {
      assert s == "\"]" && s[1..] == "]";
    } else {
      assert s[1..] == core[1..] + "\"]";
      assert forall i :: 0 <= i < |core[1..]| ==> core[1..][i] == core[i + 1];
      CssReads(core[1..], point);
      assert [core[0]] + core[1..] == core;
    }
  }

  /** A value is never longer than its text, and shorter where an escape was taken. */
  lemma {:induction false} CssShrinks(s: string, point: string -> char)
    ensures var r := ReadCss(s, point); r.Reading? ==> |r.value| + 1 + |r.rest| <= |s|
    decreases |s|
  {
    if s != "" && s[0] !in "\n\r\U{0C}" && s[0] != '"' {
      if s[0] == '\\' {
        var n := HexRun(s[1..], 6);
        if n > 0 {
          CssShrinks(s[if 1 + n < |s| && s[1 + n] in " \t\n\r\U{0C}" then 2 + n else 1 + n..], point);
        } else if |s| > 1 {
          CssShrinks(s[2..], point);
        }
      } else {
        CssShrinks(s[1..], point);
      }
    }
  }

  lemma CssBackslash(s: string, point: string -> char)
    requires s != "" && s[0] == '\\'
    ensures var r := ReadCss(s, point); r.Reading? ==> |r.value| + 1 + |r.rest| < |s|
  {
    var n := HexRun(s[1..], 6);
    if n > 0 {
      CssShrinks(s[if 1 + n < |s| && s[1 + n] in " \t\n\r\U{0C}" then 2 + n else 1 + n..], point);
    } else if |s| > 1 {
      CssShrinks(s[2..], point);
    }
  }

  lemma {:induction false} CssMisreads(core: string, point: string -> char)
    requires !CssSafe(core)
    ensures ReadCss(core + "\"]", point) != Reading(core, "]")
  {
    var s := core + "\"]";
    assert s[0] == core[0] && s[1..] == core[1..] + "\"]";
    if core[0] == '\\' {
      CssBackslash(s, point);
    } else if core[0] !in "\"\n\r\U{0C}\0" {
      assert !CssSafe(core[1..]) by {
        var i :| 0 <= i < |core| && core[i] in "\"\\\n\r\U{0C}\0";
        assert core[1..][i - 1] == core[i];
      }
      CssMisreads(core[1..], point);
      assert core == [core[0]] + core[1..];
    }
  }

  lemma {:induction false} JsPlain(p: string, more: string)
    requires forall i :: 0 <= i < |p| ==> p[i] !in "'\\\n\r"
    ensures ReadJs(p + more) == Behind(p, ReadJs(more))
  {
    if p == "" {
      assert p + more == more;
    } else {
      assert (p + more)[1..] == p[1..] + more;
      JsPlain(p[1..], more);
      BehindCons(p[0], p[1..], ReadJs(more));
      assert [p[0]] + p[1..] == p;
    }
  }

  function Front(op: Op): string {
    "[data-testid" + Sign(op) + "\""
  }

  lemma FrontIsPlain(op: Op)
    ensures forall i :: 0 <= i < |Front(op)| ==> Front(op)[i] !in "'\\\n\r"
  {
  }

  lemma SelectorIs(op: Op, s: string, point: string -> char)
    ensures ReadSelector(Front(op) + s, point) == Closed(op, ReadCss(s, point))
  {
    var name := "[data-testid";
    var mark := Sign(op) + "\"";
    assert Front(op) + s == name + (mark + s);
    assert (name + (mark + s))[|name|..] == mark + s;
    assert (mark + s)[|mark|..] == s && (mark + s)[..|mark|] == mark;
    SignIs(op, mark + s);
  }

  /** The four operators start differently. */
  lemma SignIs(op: Op, t: string)
    requires Sign(op) + "\"" <= t
    ensures "=\"" <= t <==> op == Equals
    ensures "^=\"" <= t <==> op == Prefix
    ensures "$=\"" <= t <==> op == Suffix
    ensures "*=\"" <= t <==> op == Contains
  {
    assert t[0] == Sign(op)[0];
  }

  predicate Readable(core: string) {
    JsSafe(core) && CssSafe(core)
  }

  /** The generated test selects by the operator and core that were compiled if and only if the core holds no
      quote of either kind, no backslash, no line break, form feed or null. */
  lemma ReadsBackIff(css: Css, point: string -> char)
    ensures ReadLocator(PastedText(css), point) == Some(css) <==> Readable(css.core)
  {
    var front, core := Front(css.op), css.core;
    FrontIsPlain(css.op);
    assert PastedText(css) + "')" == front + (Escaped(core) + "\"]')");
    JsPlain(front, Escaped(core) + "\"]')");
    if JsSafe(core) {
      JsUndoesEscape(core, "\"]')");
      ClosingIs();
      assert front + (core + "\"]") == front + core + "\"]";
      SelectorIs(css.op, core + "\"]", point);
      if CssSafe(core) {
        CssReads(core, point);
      } else {
        CssMisreads(core, point);
      }
    } else {
      JsUnsafe(core, "\"]')");
    }
  }

  lemma ClosingIs()
    ensures ReadJs("\"]')") == Reading("\"]", ")")
  {
    assert "\"]')"[1..] == "]')" && "]')"[1..] == "')" && "')"[1..] == ")";
  }
}
