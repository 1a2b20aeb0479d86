/** `idMatches` globs, as the runner matches them, and compiled to a CSS attribute operator
    (`bajutsu/codegen/playwright.py`). */
module Globs {

  datatype Option<+T> = None | Some(value: T)

  /** `fnmatch`, for globs without a character class. */
  predicate Matches(g: string, s: string)
    decreases |g| + |s|
  {
    if g == "" then s == ""
    else if g[0] == '*' then Matches(g[1..], s) || (s != "" && Matches(g, s[1..]))
    else s != "" && (g[0] == '?' || g[0] == s[0]) && Matches(g[1..], s[1..])
  }

  /** What one character of a glob stands for: any text, any one character, or itself. */
  predicate Fits(c: char, part: string) {
    if c == '*' then true else if c == '?' then |part| == 1 else part == [c]
  }

  function Together(parts: seq<string>): string {
    if parts == [] then "" else parts[0] + Together(parts[1..])
  }

  ghost predicate SplitsInto(g: string, s: string, parts: seq<string>) {
    |parts| == |g| && s == Together(parts) && forall i :: 0 <= i < |g| ==> Fits(g[i], parts[i])
  }

  /** A glob matches a text exactly when the text can be cut into what its characters stand for. */
  lemma MatchesIff(g: string, s: string)
    ensures Matches(g, s) <==> exists parts :: SplitsInto(g, s, parts)
  {
    if Matches(g, s) {
      var parts := MatchSplits(g, s);
    }
    if parts :| SplitsInto(g, s, parts) {
      SplitMatches(g, s, parts);
    }
  }

  lemma {:induction false} MatchSplits(g: string, s: string) returns (parts: seq<string>)
    requires Matches(g, s)
    ensures SplitsInto(g, s, parts)
    decreases |g| + |s|
  {
    if g == "" {
      parts := [];
    } else if g[0] == '*' {
      if Matches(g[1..], s) {
        var rest := MatchSplits(g[1..], s);
        parts := [""] + rest;
        assert parts[1..] == rest;
      } else {
        var rest := MatchSplits(g, s[1..]);
        parts := [[s[0]] + rest[0]] + rest[1..];
        LongerFirst(s, rest, parts);
      }
    } else {
      var rest := MatchSplits(g[1..], s[1..]);
      parts := [[s[0]]] + rest;
      assert parts[1..] == rest && s == [s[0]] + s[1..];
    }
  }

  lemma LongerFirst(s: string, rest: seq<string>, parts: seq<string>)
    requires s != "" && rest != [] && s[1..] == Together(rest) && parts == [[s[0]] + rest[0]] + rest[1..]
    ensures s == Together(parts) && parts[1..] == rest[1..]
  {
    assert parts[1..] == rest[1..];
    assert s == [s[0]] + s[1..];
  }

  lemma {:induction false} SplitMatches(g: string, s: string, parts: seq<string>)
    requires SplitsInto(g, s, parts)
    ensures Matches(g, s)
    decreases |g| + |s|
  {
    if g != "" {
      var behind := Together(parts[1..]);
      SplitMatches(g[1..], behind, parts[1..]);
      if g[0] == '*' {
        StarTakes(g, parts[0], behind);
      } else {
        assert s[1..] == behind;
      }
    }
  }

  lemma {:induction false} StarTakes(g: string, a: string, b: string)
    requires g != "" && g[0] == '*' && Matches(g[1..], b)
    ensures Matches(g, a + b)
  {
    if a == "" {
      assert a + b == b;
    } else {
      assert (a + b)[1..] == a[1..] + b;
      StarTakes(g, a[1..], b);
    }
  }

  // ----- literals and stars

  predicate Literal(s: string) {
    '*' !in s && '?' !in s
  }

  lemma {:induction false} LiteralMatches(core: string, rest: string, s: string)
    requires Literal(core)
    ensures Matches(core + rest, s) <==> core <= s && Matches(rest, s[|core|..])
  {
    if core == "" {
      assert core + rest == rest;
    } else {
      assert (core + rest)[1..] == core[1..] + rest;
      if s != "" && s[0] == core[0] {
        LiteralMatches(core[1..], rest, s[1..]);
        PrefixCons(core, s);
      }
    }
  }

  lemma PrefixCons(core: string, s: string)
    requires core != "" && s != "" && s[0] == core[0]
    ensures core[1..] <= s[1..] <==> core <= s
  {
    assert core == [core[0]] + core[1..] && s == [s[0]] + s[1..];
  }

  /** One star, or more, at the front: the rest of the glob matches some end of the text. */
  lemma {:induction false} StarsFirst(n: nat, rest: string, s: string)
    requires n > 0
    ensures Matches(Stars(n) + rest, s) <==> exists k :: 0 <= k <= |s| && Matches(rest, s[k..])
    decreases n + |s|
  {
    var g := Stars(n) + rest;
    assert g[0] == '*' && g[1..] == Stars(n - 1) + rest;
    if n > 1 {
      StarsFirst(n - 1, rest, s);
    } else {
      assert Stars(0) + rest == rest && s[0..] == s;
    }
    if s != "" {
      StarsFirst(n, rest, s[1..]);
      forall k | 0 <= k < |s|
        ensures s[1..][k..] == s[k + 1..]
      {
      }
      if k :| 0 <= k <= |s| && Matches(rest, s[k..]) && k > 0 {
        assert s[1..][k - 1..] == s[k..];
      }
    }
  }

  function Stars(n: nat): (s: string)
    ensures |s| == n && forall i :: 0 <= i < n ==> s[i] == '*'
  {
    seq(n, _ => '*')
  }

  lemma StarsAlone(n: nat, s: string)
    ensures Matches(Stars(n), s) <==> n > 0 || s == ""
  {
    if n > 0 {
      StarsFirst(n, "", s);
      assert Stars(n) + "" == Stars(n);
      assert s[|s|..] == "";
    }
  }

  // ----- the CSS operator

  datatype Op = Equals | Prefix | Suffix | Contains

  datatype Css = Css(op: Op, core: string)

  function LeadingStars(g: string): (n: nat)
    ensures n <= |g| && g[..n] == Stars(n) && (n < |g| ==> g[n] != '*')
  {
    if g != "" && g[0] == '*' then
      var n := LeadingStars(g[1..]);
      assert g[..n + 1] == ['*'] + g[1..][..n];
      n + 1
    else 0
  }

  lemma OneMoreStar(g: string, n: nat)
    requires n < |g| && g[|g| - 1] == '*' && g[..|g| - 1][|g| - 1 - n..] == Stars(n)
    ensures g[|g| - n - 1..] == Stars(n + 1)
  {
    var tail := g[|g| - n - 1..];
    forall i | 0 <= i < n + 1
      ensures tail[i] == '*'
    {
      if i < n {
        assert g[..|g| - 1][|g| - 1 - n..][i] == Stars(n)[i];
      }
    }
  }

  function TrailingStars(g: string): (n: nat)
    ensures n <= |g| && g[|g| - n..] == Stars(n) && (n < |g| ==> g[|g| - n - 1] != '*')
  {
    if g != "" && g[|g| - 1] == '*' then
      var n := TrailingStars(g[..|g| - 1]);
      OneMoreStar(g, n);
      n + 1
    else 0
  }

  /** `_glob_to_css`. */
  function GlobToCss(g: string): Option<Css> {
    if '?' in g || '[' in g || ']' in g then None
    else
      var lead, trail := LeadingStars(g), TrailingStars(g);
      if lead == |g| then None
      else
        Inner(g);
        var core := g[lead..|g| - trail];
        if '*' in core then None
        else
          Some(Css(OpFor(lead > 0, trail > 0), core))
  }

  function OpFor(lead: bool, trail: bool): Op {
    if lead then if trail then Contains else Suffix else if trail then Prefix else Equals
  }

  lemma Inner(g: string)
    requires LeadingStars(g) < |g|
    ensures LeadingStars(g) < |g| - TrailingStars(g)
  {
    var n := TrailingStars(g);
    forall i | |g| - n <= i < |g|
      ensures g[i] == '*'
    {
      assert g[i] == g[|g| - n..][i - (|g| - n)];
    }
  }

  predicate Within(core: string, s: string) {
    exists k: nat :: k <= |s| && core <= s[k..]
  }

  /** What an attribute operator selects. */
  predicate Selects(css: Css, id: string) {
    match css.op
    case Equals => id == css.core
    case Prefix => css.core <= id
    case Suffix => |css.core| <= |id| && id[|id| - |css.core|..] == css.core
    case Contains => Within(css.core, id)
  }

  /** The operator chosen selects an id exactly when the glob matches it. */
  lemma CssIff(g: string, id: string)
    requires GlobToCss(g).Some?
    ensures Selects(GlobToCss(g).value, id) <==> Matches(g, id)
  {
    var lead, trail, core := GlobShape(g);
    ShapeIff(lead, core, trail, id);
  }

  /** A glob that compiles is a literal core between stars. */
  lemma GlobShape(g: string) returns (lead: nat, trail: nat, core: string)
    requires GlobToCss(g).Some?
    ensures Literal(core) && GlobToCss(g) == Some(Css(OpFor(lead > 0, trail > 0), core))
    ensures g == Stars(lead) + (core + Stars(trail))
  {
    lead, trail := LeadingStars(g), TrailingStars(g);
    core := CoreOf(g);
    Inner(g);
    ThreeParts(g, lead, |g| - trail);
  }

  function CoreOf(g: string): (core: string)
    requires GlobToCss(g).Some?
    ensures LeadingStars(g) < |g| - TrailingStars(g) && core == g[LeadingStars(g)..|g| - TrailingStars(g)]
    ensures Literal(core) && GlobToCss(g).value == Css(OpFor(LeadingStars(g) > 0, TrailingStars(g) > 0), core)
  {
    Inner(g);
    g[LeadingStars(g)..|g| - TrailingStars(g)]
  }

  lemma ThreeParts(g: string, i: nat, j: nat)
    requires i <= j <= |g|
    ensures g == g[..i] + (g[i..j] + g[j..])
    ensures Literal(g) ==> Literal(g[i..j])
    ensures '?' !in g ==> '?' !in g[i..j]
  {
  }

  lemma ShapeIff(lead: nat, core: string, trail: nat, id: string)
    requires Literal(core)
    ensures Matches(Stars(lead) + (core + Stars(trail)), id) <==> Selects(Css(OpFor(lead > 0, trail > 0), core), id)
  {
    if lead == 0 {
      assert Stars(0) + (core + Stars(trail)) == core + Stars(trail);
      CoreIff(core, trail, id);
    } else {
      StarsFirst(lead, core + Stars(trail), id);
      SomeEnd(core, trail, id);
    }
  }

  /** The core matched from some place on. */
  lemma SomeEnd(core: string, trail: nat, id: string)
    requires Literal(core)
    ensures (exists k :: 0 <= k <= |id| && Matches(core + Stars(trail), id[k..]))
       <==> Selects(Css(OpFor(true, trail > 0), core), id)
  {
    forall k | 0 <= k <= |id|
      ensures Matches(core + Stars(trail), id[k..]) <==> core <= id[k..] && (trail > 0 || k == |id| - |core|)
    {
      CoreIff(core, trail, id[k..]);
    }
    if trail == 0 && |core| <= |id| {
      var k := |id| - |core|;
      assert core <= id[k..] <==> id[k..] == core;
    }
  }

  lemma CoreIff(core: string, trail: nat, s: string)
    requires Literal(core)
    ensures Matches(core + Stars(trail), s) <==> core <= s && (trail > 0 || |s| == |core|)
  {
    LiteralMatches(core, Stars(trail), s);
    if core <= s {
      StarsAlone(trail, s[|core|..]);
    }
  }
}
