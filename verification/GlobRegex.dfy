/** `idMatches` globs compiled to a Java regular expression (`bajutsu/codegen/uiautomator.py`). */
module GlobRegex {
  import opened Globs

  datatype Item = Any | One | Char(c: char)

  const SPECIAL := "()[]{}?*+-|^$\\.&~# \t\n\r\U{0B}\U{0C}"

  /** `re.escape` of one character. */
  function EscapeRe(c: char): string {
    if c in SPECIAL then ['\\', c] else [c]
  }

  /** The body of `_glob_to_regex`. */
  function GlobToRegex(g: string): Option<string> {
    if '[' in g || ']' in g then None else Some(RegexBody(g))
  }

  function CharRegex(c: char): string {
    if c == '*' then ".*" else if c == '?' then "." else EscapeRe(c)
  }

  function RegexBody(g: string): string {
    if g == "" then ""
    else CharRegex(g[0]) + RegexBody(g[1..])
  }

  /** What a regular expression made of dots, stars and escaped characters means. */
  function ReadRegex(s: string): Option<seq<Item>> {
    if s == "" then Some([])
    else if s[0] == '\\' then if |s| == 1 then None else Then(Char(s[1]), ReadRegex(s[2..]))
    else if s[0] == '.' && |s| > 1 && s[1] == '*' then Then(Any, ReadRegex(s[2..]))
    else if s[0] == '.' then Then(One, ReadRegex(s[1..]))
    else if s[0] in SPECIAL then None
    else Then(Char(s[0]), ReadRegex(s[1..]))
  }

  function Then(i: Item, r: Option<seq<Item>>): Option<seq<Item>> {
    if r.Some? then Some([i] + r.value) else None
  }

  predicate IsLineBreak(c: char) {
    c in "\n\r\U{85}\U{2028}\U{2029}"
  }

  /** The whole text matches; a dot takes no line break. */
  predicate FullMatch(items: seq<Item>, s: string)
    decreases |items| + |s|
  {
    if items == [] then s == ""
    else match items[0]
      case Any => FullMatch(items[1..], s) || (s != "" && !IsLineBreak(s[0]) && FullMatch(items, s[1..]))
      case One => s != "" && !IsLineBreak(s[0]) && FullMatch(items[1..], s[1..])
      case Char(c) => s != "" && s[0] == c && FullMatch(items[1..], s[1..])
  }

  const ID := ":id/"

  /** The whole text matches `(.*:id/)?` and then the body. */
  ghost predicate PrefixedMatch(items: seq<Item>, s: string) {
    FullMatch(items, s) || exists k: nat :: IsPackage(s, k) && FullMatch(items, s[k..])
  }

  /** `s` up to `k` is what `.*:id/` matches. */
  predicate IsPackage(s: string, k: nat) {
    |ID| <= k <= |s| && s[k - |ID|..k] == ID && forall i :: 0 <= i < k - |ID| ==> !IsLineBreak(s[i])
  }

  function ItemOf(c: char): Item {
    if c == '*' then Any else if c == '?' then One else Char(c)
  }

  function Items(g: string): seq<Item> {
    if g == "" then []
    else [ItemOf(g[0])] + Items(g[1..])
  }

  /** One character's text is read as its item, where no star follows. */
  lemma ItemReads(c: char, more: string)
    requires more != "" ==> more[0] != '*'
    ensures ReadRegex(CharRegex(c) + more) == Then(ItemOf(c), ReadRegex(more))
    ensures (CharRegex(c) + more)[0] != '*'
  {
    if |CharRegex(c)| == 2 {
      PairReads(CharRegex(c)[0], CharRegex(c)[1], more);
      assert CharRegex(c) == [CharRegex(c)[0], CharRegex(c)[1]];
    } else {
      SingleReads(CharRegex(c)[0], more);
      assert CharRegex(c) == [CharRegex(c)[0]];
    }
  }

  lemma PairReads(a: char, b: char, more: string)
    requires a == '\\' || (a == '.' && b == '*')
    ensures ReadRegex([a, b] + more) == Then(if a == '.' then Any else Char(b), ReadRegex(more))
  {
    assert ([a, b] + more)[2..] == more && ([a, b] + more)[1] == b;
  }

  lemma SingleReads(a: char, more: string)
    requires a == '.' || a !in SPECIAL
    requires more != "" ==> more[0] != '*'
    ensures ReadRegex([a] + more) == Then(if a == '.' then One else Char(a), ReadRegex(more))
  {
    var s := [a] + more;
    assert s[1..] == more;
    assert more != "" ==> s[1] == more[0];
    assert '\\' in SPECIAL && '.' in SPECIAL;
  }

  /** The text is read as one item a glob character. */
  lemma {:induction false} RegexReads(g: string)
    ensures ReadRegex(RegexBody(g)) == Some(Items(g))
    ensures RegexBody(g) != "" ==> RegexBody(g)[0] != '*'
  {
    if g != "" {
      RegexReads(g[1..]);
      ItemReads(g[0], RegexBody(g[1..]));
    }
  }

  predicate LineBreakFree(s: string) {
    forall i :: 0 <= i < |s| ==> !IsLineBreak(s[i])
  }

  lemma {:induction false} ItemsIff(g: string, s: string)
    requires LineBreakFree(s)
    ensures FullMatch(Items(g), s) <==> Matches(g, s)
    decreases |g| + |s|
  {
    if g != "" {
      assert Items(g)[1..] == Items(g[1..]);
      if s != "" {
        assert LineBreakFree(s[1..]) by {
          assert forall i :: 0 <= i < |s[1..]| ==> s[1..][i] == s[i + 1];
        }
        ItemsIff(g[1..], s[1..]);
        ItemsIff(g, s[1..]);
      }
      ItemsIff(g[1..], s);
    }
  }

  /** The generated pattern matches an id exactly when the glob matches it, or what follows a resource prefix. */
  ghost predicate OneVerdict(g: string, id: string)
    requires GlobToRegex(g).Some?
  {
    var items := ReadRegex(GlobToRegex(g).value);
    && items.Some?
    && (PrefixedMatch(items.value, id)
        <==> Matches(g, id) || exists k: nat :: |ID| <= k <= |id| && id[k - |ID|..k] == ID && Matches(g, id[k..]))
  }

  lemma RegexIff(g: string, id: string)
    requires GlobToRegex(g).Some? && LineBreakFree(id)
    ensures OneVerdict(g, id)
  {
    RegexReads(g);
    ItemsIff(g, id);
    forall k: nat | k <= |id|
      ensures FullMatch(Items(g), id[k..]) <==> Matches(g, id[k..])
      ensures |ID| <= k && id[k - |ID|..k] == ID ==> IsPackage(id, k)
    {
      ItemsIff(g, id[k..]);
    }
  }

  // ----- ids with line breaks

  lemma {:induction false} AnyIff(s: string)
    ensures FullMatch([Any], s) <==> LineBreakFree(s)
    ensures Matches("*", s)
  {
    assert [Any][1..] == [] && "*"[1..] == "";
    if s == "" {
      assert Matches("", s);
    } else {
      AnyIff(s[1..]);
      assert s == [s[0]] + s[1..];
    }
  }

  /** The pattern of the glob that matches everything takes no id with a line break, prefix or not. */
  lemma StarIff(id: string)
    ensures PrefixedMatch([Any], id) <==> LineBreakFree(id)
  {
    AnyIff(id);
    forall k: nat | IsPackage(id, k) && FullMatch([Any], id[k..])
      ensures LineBreakFree(id)
    {
      AnyIff(id[k..]);
      PrefixBreaks(id, k);
    }
  }

  lemma PrefixBreaks(id: string, k: nat)
    requires IsPackage(id, k) && LineBreakFree(id[k..])
    ensures LineBreakFree(id)
  {
    forall i | 0 <= i < |id|
      ensures !IsLineBreak(id[i])
    {
      if i >= k {
        assert id[i] == id[k..][i - k];
      } else if i >= k - |ID| {
        assert id[i] == id[k - |ID|..k][i - (k - |ID|)] == ID[i - (k - |ID|)];
        assert ID == [':', 'i', 'd', '/'];
      }
    }
  }

  /** On an id every compiled glob and its pattern give one verdict if and only if the id has no line break. */
  lemma AllGlobsAgreeIff(id: string)
    ensures (forall g :: GlobToRegex(g).Some? ==> OneVerdict(g, id)) <==> LineBreakFree(id)
  {
    if LineBreakFree(id) {
      forall g | GlobToRegex(g).Some?
        ensures OneVerdict(g, id)
      {
        RegexIff(g, id);
      }
    } else {
      StarCompiles();
      AnyIff(id);
      StarIff(id);
      assert !OneVerdict("*", id);
    }
  }

  lemma StarCompiles()
    ensures GlobToRegex("*").Some? && ReadRegex(GlobToRegex("*").value) == Some([Any])
  {
    assert '[' !in "*" && ']' !in "*";
    RegexReads("*");
    assert "*"[1..] == "";
    assert Items("*") == [Any] + Items("") == [Any];
  }
}
