/** Unknown metadata rows through both fixes, wherever the block stands (`scripts/fix_roadmap_drift.py` against
    `scripts/check_roadmap_format.py`): a new section inside the block adds no row, but may tear one that runs over a
    heading. */
module TemplateRows {
  import opened TextLines
  import opened Template
  import opened TemplateFix
  import opened TemplateRebuild
  import opened TemplateComplete
  import opened TemplateFields
  import opened TemplateSettles
  import opened TemplateFixer
  import TemplateExact

  /** The fixer sees an unknown row. */
  ghost predicate Seen(text: string, known: seq<string>) {
    SomeUnknown(BareLines(BlockText(text)), known)
  }

  /** What the block holds; nothing without a block. */
  function BlockText(text: string): string {
    var b := MetaBlock(text);
    if b.Block? then text[b.start..b.end] else ""
  }

  // ----- rows by their place

  /** An unknown row that is a line of the text, cut at newlines alone. */
  predicate UnknownAt(s: string, known: seq<string>, i: int, j: int) {
    && 0 <= i <= j <= |s| && (forall k :: i <= k < j ==> s[k] != '\n')
    && (i == 0 || s[i - 1] == '\n') && (j == |s| || s[j] == '\n')
    && Unknown(s[i..j], known)
  }

  ghost predicate SomeAt(s: string, known: seq<string>) {
    exists i, j :: UnknownAt(s, known, i, j)
  }

  lemma {:induction false} SomeAtIff(s: string, known: seq<string>)
    ensures SomeUnknown(PatternLines(s), known) <==> SomeAt(s, known)
    decreases |s|
  {
    var n := Find(s, "\n", 0);
    NewlineAt(s, n);
    forall k | 0 <= k < n
      ensures s[k] != '\n'
    {
      NewlineAt(s, k);
    }
    if n == |s| {
      OneLineAt(s, known);
    } else {
      var t := s[n + 1..];
      SomeAtIff(t, known);
      FirstLineAt(s, n, known);
      assert PatternLines(s) == [s[..n]] + PatternLines(t);
      assert SomeUnknown(PatternLines(s), known) <==> Unknown(s[..n], known) || SomeUnknown(PatternLines(t), known);
    }
  }

  lemma OneLineAt(s: string, known: seq<string>)
    requires forall k :: 0 <= k < |s| ==> s[k] != '\n'
    ensures SomeAt(s, known) <==> Unknown(s, known)
  {
    assert s[0..|s|] == s;
    if Unknown(s, known) {
      assert UnknownAt(s, known, 0, |s|);
    }
  }

  lemma FirstLineAt(s: string, n: nat, known: seq<string>)
    requires n < |s| && s[n] == '\n' && forall k :: 0 <= k < n ==> s[k] != '\n'
    ensures SomeAt(s, known) <==> Unknown(s[..n], known) || SomeAt(s[n + 1..], known)
  {
    var t := s[n + 1..];
    assert s[0..n] == s[..n];
    if Unknown(s[..n], known) {
      assert UnknownAt(s, known, 0, n);
    }
    if i, j :| UnknownAt(t, known, i, j) {
      assert s[n + 1 + i..n + 1 + j] == t[i..j];
      assert UnknownAt(s, known, n + 1 + i, n + 1 + j);
    }
    if i, j :| UnknownAt(s, known, i, j) {
      LineBehind(s, known, n, i, j);
    }
  }

  lemma LineBehind(s: string, known: seq<string>, n: nat, i: int, j: int)
    requires n < |s| && s[n] == '\n' && (forall k :: 0 <= k < n ==> s[k] != '\n') && UnknownAt(s, known, i, j)
    ensures Unknown(s[..n], known) || SomeAt(s[n + 1..], known)
  {
    var t := s[n + 1..];
    if i <= n {
      assert i == 0 && j == n;
      assert s[0..n] == s[..n];
    } else {
      assert t[i - n - 1..j - n - 1] == s[i..j];
      assert UnknownAt(t, known, i - n - 1, j - n - 1);
    }
  }

  /** An unknown row of the block, as the checker cuts it: between newlines, the one of the opening mark and of the
      closing mark included. */
  predicate RowAt(text: string, known: seq<string>, i: int, j: int) {
    var b := MetaBlock(text);
    b.Block? && RowIn(text, b.start, b.end, known, i, j)
  }

  predicate LineAt(t: string, i: int, j: int) {
    0 < i <= j < |t| && t[i - 1] == '\n' && t[j] == '\n' && forall k :: i <= k < j ==> t[k] != '\n'
  }

  /** An unknown row between two places. */
  predicate RowIn(t: string, s: int, e: int, known: seq<string>, i: int, j: int) {
    s <= i <= j <= e && LineAt(t, i, j) && Unknown(t[i..j], known)
  }

  lemma SliceOfSlice<T>(t: seq<T>, s: nat, e: nat, i: nat, j: nat)
    requires s <= i <= j <= e <= |t|
    ensures t[s..e][i - s..j - s] == t[i..j]
  {
    assert |t[s..e][i - s..j - s]| == j - i;
    forall k | 0 <= k < j - i
      ensures t[s..e][i - s..j - s][k] == t[i..j][k]
    {
      assert t[s..e][i - s + k] == t[i + k];
    }
  }

  /** A line of a part between two newlines. */
  lemma LineInside(t: string, s: nat, e: nat, known: seq<string>, i: nat, j: nat)
    requires 0 < s <= i <= j <= e < |t| && t[s - 1] == '\n' && t[e] == '\n'
    ensures UnknownAt(t[s..e], known, i - s, j - s) <==> RowIn(t, s, e, known, i, j)
  {
    var p := t[s..e];
    SliceOfSlice(t, s, e, i, j);
    NoNewlineInside(t, s, e, i, j);
    assert i > s ==> p[i - s - 1] == t[i - 1];
    assert j < e ==> p[j - s] == t[j];
    LineOfPart(p, known, i - s, j - s);
    assert UnknownAt(p, known, i - s, j - s) <==> Unknown(t[i..j], known) && LineAt(t, i, j);
  }

  lemma LineOfPart(p: string, known: seq<string>, i: nat, j: nat)
    requires i <= j <= |p|
    ensures UnknownAt(p, known, i, j)
       <==> (forall k :: i <= k < j ==> p[k] != '\n') && (i == 0 || p[i - 1] == '\n') && (j == |p| || p[j] == '\n')
            && Unknown(p[i..j], known)
  {
  }

  lemma NoNewlineInside(t: string, s: nat, e: nat, i: nat, j: nat)
    requires s <= i <= j <= e <= |t|
    ensures (forall k :: i - s <= k < j - s ==> t[s..e][k] != '\n') <==> (forall k :: i <= k < j ==> t[k] != '\n')
  {
    var p := t[s..e];
    if forall k :: i - s <= k < j - s ==> p[k] != '\n' {
      forall k | i <= k < j
        ensures t[k] != '\n'
      {
        assert p[k - s] == t[k];
      }
    }
    if forall k :: i <= k < j ==> t[k] != '\n' {
      forall k | i - s <= k < j - s
        ensures p[k] != '\n'
      {
        assert p[k] == t[k + s];
      }
    }
  }

  lemma RowsIn(t: string, s: nat, e: nat, known: seq<string>)
    requires 0 < s <= e < |t| && t[s - 1] == '\n' && t[e] == '\n'
    ensures SomeUnknown(PatternLines(t[s..e]), known) <==> exists i, j :: RowIn(t, s, e, known, i, j)
  {
    SomeAtIff(t[s..e], known);
    if SomeAt(t[s..e], known) {
      var i, j :| UnknownAt(t[s..e], known, i, j);
      LineInside(t, s, e, known, s + i, s + j);
    }
    if i, j :| RowIn(t, s, e, known, i, j) {
      LineInside(t, s, e, known, i, j);
      assert SomeAt(t[s..e], known);
    }
  }

  /** The checker flags a file for a row at some place. */
  lemma FlaggedAt(text: string, known: seq<string>)
    ensures Flagged(text, known) <==> exists i, j :: RowAt(text, known, i, j)
  {
    var b := MetaBlock(text);
    if b.Block? {
      BlockInside(text);
      RowsIn(text, b.start, b.end, known);
      assert forall i, j :: RowAt(text, known, i, j) <==> RowIn(text, b.start, b.end, known, i, j);
    }
  }

  lemma BlockInside(t: string)
    requires MetaBlock(t).Block?
    ensures var b := MetaBlock(t); 0 < b.start <= b.end < |t| && t[b.start - 1] == '\n' && t[b.end] == '\n'
  {
    OpenEnds(t);
  }

  // ----- a new section between two parts of a text

  /** A section the fixer may insert: of one or more lines, without the characters of a row or a mark. */
  predicate IsNew(n: string) {
    n != "" && n[0] == '#' && n[|n| - 1] == '\n' && '|' !in n && '<' !in n
  }

  /** The end of the text, or a section. */
  predicate IsRest(b: string) {
    b == "" || b[0] == '#'
  }

  predicate IsMark(m: string) {
    m != "" && '#' !in m && '<' in m
  }

  /** A mark stands in one of the two parts. */
  lemma MarkAt(a: string, b: string, m: string, k: nat)
    requires IsRest(b) && IsMark(m)
    ensures At(a + b, m, k) <==> At(a, m, k) || (k > |a| && At(b, m, k - |a|))
  {
    var t := a + b;
    if k >= |a| {
      assert k + |m| <= |t| ==> t[k..k + |m|] == b[k - |a|..k - |a| + |m|];
      assert |m| <= |b| ==> b[0..|m|][0] == '#';
    } else if k + |m| <= |a| {
      assert t[k..k + |m|] == a[k..k + |m|];
    } else if k + |m| <= |t| {
      assert t[k..k + |m|][|a| - k] == b[0] == '#';
    }
  }

  lemma MarkInside(n: string, m: string, k: nat)
    requires IsMark(m)
    ensures At(n, m, k) ==> '<' in n
  {
    if At(n, m, k) {
      var i :| 0 <= i < |m| && m[i] == '<';
      assert n[k + i] == n[k..k + |m|][i];
    }
  }

  /** A place of the text, with the new section put in. */
  function Moved(a: string, n: string, p: nat): nat {
    if p <= |a| then p else p + |n|
  }

  lemma MarkMoved(a: string, n: string, b: string, m: string, k: nat)
    requires IsNew(n) && IsRest(b) && IsMark(m)
    ensures At(a + (n + b), m, k) <==> At(a, m, k) || (k > |a| + |n| && At(b, m, k - |a| - |n|))
    ensures At(a + b, m, k) <==> At(a, m, k) || (k > |a| && At(b, m, k - |a|))
  {
    MarkAt(a, b, m, k);
    MarkAt(a, n + b, m, k);
    if k > |a| {
      MarkAt(n, b, m, k - |a|);
      MarkInside(n, m, k - |a|);
    }
  }

  /** A mark is found where it was, moved. */
  lemma FoundMoved(a: string, n: string, b: string, m: string, from: nat)
    requires IsNew(n) && IsRest(b) && IsMark(m) && from <= |a + b|
    ensures var p := Find(a + b, m, from);
      && (p < |a + b| ==> p != |a| && (p < |a| ==> p + |m| <= |a|))
      && Moved(a, n, from) <= |a + (n + b)|
      && Find(a + (n + b), m, Moved(a, n, from)) == if p < |a + b| then Moved(a, n, p) else |a + (n + b)|
  {
    var t, u, p := a + b, a + (n + b), Find(a + b, m, from);
    var q := if p < |t| then Moved(a, n, p) else |u|;
    if p < |t| {
      MarkMoved(a, n, b, m, p);
      MarkMoved(a, n, b, m, q);
    }
    forall k | Moved(a, n, from) <= k < q
      ensures !At(u, m, k)
    {
      NoMarkBefore(a, n, b, m, from, k);
    }
    FoundFirst(u, m, Moved(a, n, from), q);
  }

  lemma NoMarkBefore(a: string, n: string, b: string, m: string, from: nat, k: nat)
    requires IsNew(n) && IsRest(b) && IsMark(m) && from <= |a + b| && Moved(a, n, from) <= k
    requires var p := Find(a + b, m, from); p == |a + b| || k < Moved(a, n, p)
    ensures !At(a + (n + b), m, k)
  {
    MarkMoved(a, n, b, m, k);
    MarkMoved(a, n, b, m, if k <= |a| then k else if k > |a| + |n| then k - |n| else |a|);
  }

  lemma FoundFirst(u: string, m: string, from: nat, q: nat)
    requires m != "" && from <= q <= |u| && (q < |u| ==> At(u, m, q)) && forall k :: from <= k < q ==> !At(u, m, k)
    ensures Find(u, m, from) == q
  {
  }

  lemma MarksAre()
    ensures IsMark(OPEN) && IsMark(CLOSE) && CLOSE[|CLOSE| - 1] != '\n'
  {
    assert OPEN[0] == '<' && CLOSE[1] == '<';
  }

  /** The block between two marks, whatever they are. */
  function BlockOf(t: string, o: string, c: string): Block
    requires o != "" && c != ""
  {
    var p := Find(t, o, 0);
    if p == |t| then NoBlock
    else
      var q := Find(t, c, p + |o|);
      if q == |t| then NoBlock else Block(p + |o|, q)
  }

  lemma MetaBlockIs(t: string)
    ensures MetaBlock(t) == BlockOf(t, OPEN, CLOSE)
  {
  }

  function MovedBlock(a: string, n: string, b: Block): Block {
    match b
    case NoBlock => NoBlock
    case Block(s, e) => Block(Moved(a, n, s), Moved(a, n, e))
  }

  lemma BlockFrom(t: string, o: string, c: string, p: nat, q: nat)
    requires o != "" && c != "" && p + |o| <= |t| && q < |t| && Find(t, o, 0) == p && Find(t, c, p + |o|) == q
    ensures BlockOf(t, o, c) == Block(p + |o|, q)
  {
  }

  lemma NoneFrom(t: string, o: string, c: string, p: nat)
    requires o != "" && c != "" && p + |o| <= |t| && Find(t, o, 0) == p && Find(t, c, p + |o|) == |t|
    ensures BlockOf(t, o, c) == NoBlock
  {
  }

  lemma BlockOfMoved(a: string, n: string, b: string, o: string, c: string)
    requires IsNew(n) && IsRest(b) && IsMark(o) && IsMark(c)
    ensures BlockOf(a + (n + b), o, c) == MovedBlock(a, n, BlockOf(a + b, o, c))
    ensures BlockOf(a + b, o, c).Block? ==> BlockOf(a + b, o, c).end != |a|
  {
    FoundMoved(a, n, b, o, 0);
    var p := Find(a + b, o, 0);
    if p < |a + b| {
      EndMoved(a, n, b, o, c, p, Moved(a, n, p));
    }
  }

  lemma EndMoved(a: string, n: string, b: string, o: string, c: string, p: nat, moved: nat)
    requires IsNew(n) && IsRest(b) && IsMark(o) && IsMark(c)
    requires p < |a + b| && Find(a + b, o, 0) == p && p != |a| && (p < |a| ==> p + |o| <= |a|)
    requires moved == Moved(a, n, p) < |a + (n + b)| && Find(a + (n + b), o, 0) == moved
    ensures BlockOf(a + (n + b), o, c) == MovedBlock(a, n, BlockOf(a + b, o, c))
    ensures BlockOf(a + b, o, c).Block? ==> BlockOf(a + b, o, c).end != |a|
  {
    var t, u := a + b, a + (n + b);
    FoundMoved(a, n, b, c, p + |o|);
    assert Moved(a, n, p + |o|) == moved + |o|;
    var q := Find(t, c, p + |o|);
    if q < |t| {
      BlockFrom(t, o, c, p, q);
      BlockFrom(u, o, c, moved, Moved(a, n, q));
    } else {
      NoneFrom(t, o, c, p);
      NoneFrom(u, o, c, moved);
    }
  }

  /** The block stays where it was, the new section in it, before it or behind it. */
  lemma BlockMoved(a: string, n: string, b: string)
    requires IsNew(n) && IsRest(b)
    ensures MetaBlock(a + (n + b)) == MovedBlock(a, n, MetaBlock(a + b))
    ensures MetaBlock(a + b).Block? ==> MetaBlock(a + b).end != |a|
  {
    MarksAre();
    MetaBlockIs(a + b);
    MetaBlockIs(a + (n + b));
    BlockOfMoved(a, n, b, OPEN, CLOSE);
  }

  // ----- what the fixer sees

  lemma {:induction false} BareAllConcat(a: seq<string>, b: seq<string>)
    ensures BareAll(a + b) == BareAll(a) + BareAll(b)
  {
    if a == [] {
      assert a + b == b;
    } else {
      assert (a + b)[1..] == a[1..] + b;
      BareAllConcat(a[1..], b);
    }
  }

  lemma BareConcat(x: string, y: string, known: seq<string>)
    requires Closed(x) && (y == "" || y[0] == '#')
    ensures SomeUnknown(BareLines(x + y), known) <==> SomeUnknown(BareLines(x), known) || SomeUnknown(BareLines(y), known)
  {
    LinesConcat(x, y);
    BareAllConcat(Lines(x), Lines(y));
  }

  lemma {:induction false} NoBarLines(lines: seq<string>, known: seq<string>)
    requires forall i :: 0 <= i < |lines| ==> '|' !in lines[i]
    ensures !SomeUnknown(BareAll(lines), known)
  {
    if lines != [] {
      NoBarLines(lines[1..], known);
      assert '|' !in Bare(lines[0]);
      NoBar(Bare(lines[0]), known);
    }
  }

  /** A row has a bar. */
  lemma NoBar(l: string, known: seq<string>)
    ensures Unknown(l, known) ==> '|' in l
  {
    if Unknown(l, known) {
      assert l[0] == l[..2][0] == '|';
    }
  }

  lemma {:induction false} LinesWithin(s: string, c: char)
    requires c !in s
    ensures forall i :: 0 <= i < |Lines(s)| ==> c !in Lines(s)[i]
  {
    if s != "" {
      LinesWithin(s[LineEnd(s)..], c);
    }
  }

  lemma NewIsNoRow(n: string, known: seq<string>)
    requires IsNew(n)
    ensures !SomeUnknown(BareLines(n), known)
  {
    LinesWithin(n, '|');
    NoBarLines(Lines(n), known);
  }

  /** What may stand before a new section. */
  predicate Fits(a: string, b: string) {
    IsRest(b) && (b != "" ==> Closed(a))
  }

  lemma SeenInside(x: string, n: string, y: string, known: seq<string>)
    requires Closed(x) && IsNew(n) && (y == "" || y[0] == '#')
    ensures SomeUnknown(BareLines(x + (n + y)), known) <==> SomeUnknown(BareLines(x + y), known)
  {
    BareConcat(x, n + y, known);
    BareConcat(n, y, known);
    BareConcat(x, y, known);
    NewIsNoRow(n, known);
  }

  /** What stands between two places, with the new section put in. */
  lemma SliceMoved(a: string, n: string, b: string, s: nat, e: nat)
    requires s <= e <= |a + b|
    ensures Moved(a, n, s) <= Moved(a, n, e) <= |a + (n + b)|
    ensures e <= |a| || s > |a| ==> (a + (n + b))[Moved(a, n, s)..Moved(a, n, e)] == (a + b)[s..e]
    ensures s <= |a| < e ==> e - |a| <= |b| && (a + b)[s..e] == a[s..] + b[..e - |a|]
                             && (a + (n + b))[Moved(a, n, s)..Moved(a, n, e)] == a[s..] + (n + b[..e - |a|])
  {
    var t, u := a + b, a + (n + b);
    if e <= |a| {
      assert u[s..e] == a[s..e] == t[s..e];
    } else if s > |a| {
      assert u[s + |n|..e + |n|] == b[s - |a|..e - |a|] == t[s..e];
    }
  }

  /** A new section hides no row from the fixer, and shows it none. */
  lemma SeenMoved(a: string, n: string, b: string, known: seq<string>)
    requires IsNew(n) && Fits(a, b)
    ensures Seen(a + (n + b), known) <==> Seen(a + b, known)
  {
    BlockMoved(a, n, b);
    var c := MetaBlock(a + b);
    if c.Block? {
      BlockInside(a + b);
      PartMoved(a, n, b, c.start, c.end, known);
    }
  }

  lemma PartMoved(a: string, n: string, b: string, s: nat, e: nat, known: seq<string>)
    requires IsNew(n) && Fits(a, b) && s <= e <= |a + b|
    ensures Moved(a, n, s) <= Moved(a, n, e) <= |a + (n + b)|
    ensures SomeUnknown(BareLines((a + (n + b))[Moved(a, n, s)..Moved(a, n, e)]), known)
       <==> SomeUnknown(BareLines((a + b)[s..e]), known)
  {
    SliceMoved(a, n, b, s, e);
    if s <= |a| < e {
      SeenInside(a[s..], n, b[..e - |a|], known);
    }
  }

  // ----- what the checker flags

  /** A line that begins with a heading's mark is no row. */
  lemma HeadingIsNoRow(l: string, known: seq<string>)
    requires l == "" || l[0] == '#'
    ensures !Unknown(l, known)
  {
    assert |l| >= 2 ==> l[..2][0] == '#';
  }

  /** A line in which something behind the last bar is no white space is no row. */
  lemma NoBarBehind(l: string, known: seq<string>, k: nat)
    requires k < |l| && !IsSpace(l[k]) && forall i :: k <= i < |l| ==> l[i] != '|'
    ensures !Unknown(l, known)
  {
    StripRightAtLeast(l, k + 1);
    StripRightIs(l);
    var body := StripRight(l);
    assert body[|body| - 1] != '|';
    assert |body| >= 2 ==> body[|body| - 2..][1] == body[|body| - 1];
  }

  lemma {:induction false} StripRightIs(s: string)
    ensures |StripRight(s)| <= |s| && StripRight(s) == s[..|StripRight(s)|]
  {
    if s != "" && IsSpace(s[|s| - 1]) {
      StripRightIs(s[..|s| - 1]);
    }
  }

  /** The rows of the text with the new section are those that do not run over its place. */
  lemma RowStays(a: string, n: string, b: string, known: seq<string>, i: nat, j: nat)
    requires IsNew(n) && IsRest(b) && RowAt(a + b, known, i, j) && !(i < |a| < j)
    ensures j < |a| || i > |a|
    ensures RowAt(a + (n + b), known, Moved(a, n, i), Moved(a, n, j))
  {
    BlockMoved(a, n, b);
    LineStays(a, n, b, known, i, j);
  }

  lemma LineStays(a: string, n: string, b: string, known: seq<string>, i: nat, j: nat)
    requires IsNew(n) && IsRest(b) && LineAt(a + b, i, j) && Unknown((a + b)[i..j], known) && !(i < |a| < j)
    ensures j < |a| || i > |a|
    ensures var x, y := Moved(a, n, i), Moved(a, n, j);
      LineAt(a + (n + b), x, y) && Unknown((a + (n + b))[x..y], known)
  {
    var t, u := a + b, a + (n + b);
    NotAtRest(a, b, known, i, j);
    SliceMoved(a, n, b, i, j);
    if j < |a| {
      assert forall k :: i - 1 <= k <= j ==> u[k] == t[k];
    } else {
      SameBehindNew(a, n, b, i - 1, j);
    }
  }

  lemma SameBehindNew(a: string, n: string, b: string, i: nat, j: nat)
    requires |a| <= i <= j < |a + b|
    ensures forall k :: i + |n| <= k <= j + |n| ==> (a + (n + b))[k] == (a + b)[k - |n|]
    ensures forall k :: i <= k <= j ==> (a + b)[k] == (a + (n + b))[k + |n|]
  {
  }

  lemma NotAtRest(a: string, b: string, known: seq<string>, i: nat, j: nat)
    requires IsRest(b) && LineAt(a + b, i, j) && Unknown((a + b)[i..j], known) && !(i < |a| < j)
    ensures j < |a| || i > |a|
  {
    var l := (a + b)[i..j];
    if i == |a| {
      assert l != "" ==> l[0] == b[0];
      HeadingIsNoRow(l, known);
    }
  }

  lemma RowWas(a: string, n: string, b: string, known: seq<string>, i: nat, j: nat)
    requires IsNew(n) && IsRest(b) && RowAt(a + (n + b), known, i, j)
    ensures j < |a| || i > |a| + |n|
    ensures if j < |a| then RowAt(a + b, known, i, j) else RowAt(a + b, known, i - |n|, j - |n|)
  {
    BlockMoved(a, n, b);
    LineWas(a, n, b, known, i, j);
  }

  lemma LineWas(a: string, n: string, b: string, known: seq<string>, i: nat, j: nat)
    requires IsNew(n) && IsRest(b) && LineAt(a + (n + b), i, j) && Unknown((a + (n + b))[i..j], known)
    ensures j < |a| || i > |a| + |n|
    ensures if j < |a| then LineAt(a + b, i, j) && Unknown((a + b)[i..j], known)
            else LineAt(a + b, i - |n|, j - |n|) && Unknown((a + b)[i - |n|..j - |n|], known)
  {
    var t, u := a + b, a + (n + b);
    NotInNew(a, n, b, known, i, j);
    if j < |a| {
      assert forall k :: 0 <= k < |a| ==> t[k] == a[k] && u[k] == a[k];
      assert t[i..j] == u[i..j];
    } else {
      assert t[i - |n|..j - |n|] == u[i..j];
      SameBehindNew(a, n, b, i - |n| - 1, j - |n|);
    }
  }

  /** A row ends before the new section, or begins behind it. */
  lemma NotInNew(a: string, n: string, b: string, known: seq<string>, i: nat, j: nat)
    requires IsNew(n) && IsRest(b) && LineAt(a + (n + b), i, j) && Unknown((a + (n + b))[i..j], known)
    ensures j < |a| || i > |a| + |n|
  {
    var u := a + (n + b);
    var l := u[i..j];
    assert u[|a|] == '#' && u[|a| + |n| - 1] == '\n';
    if i <= |a| < j {
      assert j < |a| + |n|;
      assert forall k :: |a| <= k < j ==> u[k] == n[k - |a|];
      assert !IsSpace('#');
      NoBarBehind(l, known, |a| - i);
    } else if |a| < i < |a| + |n| {
      assert j < |a| + |n|;
      assert forall k :: i <= k < j ==> u[k] == n[k - |a|];
      NoBar(l, known);
    } else if i == |a| + |n| || i == |a| {
      HeadingIsNoRow(l, known);
    }
  }
}
