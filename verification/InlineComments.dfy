/** HTML comments inside a Markdown line (`scripts/ja_register_check.py`): searched in a copy whose code
    spans are blanked out, cut from the line itself. */
module InlineComments {
  import opened TextLines

  const OPENER := "<!--"
  const CLOSER := "-->"

  /** Code spans overwritten, from inside or outside one; a backtick without a partner stays. */
  function MaskFrom(s: string, inSpan: bool): (m: string)
    ensures |m| == |s|
  {
    if s == "" then ""
    else if s[0] == '`' then
      if inSpan then "_" + MaskFrom(s[1..], false)
      else if '`' in s[1..] then "_" + MaskFrom(s[1..], true)
      else s
    else [if inSpan then '_' else s[0]] + MaskFrom(s[1..], inSpan)
  }

  function Mask(s: string): (m: string)
    ensures |m| == |s|
  {
    MaskFrom(s, false)
  }

  datatype Span = Span(start: nat, end: nat)

  datatype Next = NoComment | Comment(span: Span)

  /** The first complete comment from a place on. */
  function NextComment(m: string, from: nat): (n: Next)
    requires from <= |m|
    ensures n.Comment? ==> from <= n.span.start < n.span.end <= |m|
  {
    var i := Find(m, OPENER, from);
    if i == |m| then NoComment
    else
      var j := Find(m, CLOSER, i + |OPENER|);
      if j == |m| then NoComment else Comment(Span(i, j + |CLOSER|))
  }

  /** Complete comments, from the left, without overlap. */
  function Comments(m: string, from: nat): (spans: seq<Span>)
    requires from <= |m|
    decreases |m| - from
  {
    match NextComment(m, from)
    case NoComment => []
    case Comment(c) => [c] + Comments(m, c.end)
  }

  /** Spans in order, without overlap, inside `[from, n)`. */
  predicate InOrder(spans: seq<Span>, from: nat, n: nat) {
    if spans == [] then from <= n
    else from <= spans[0].start <= spans[0].end && InOrder(spans[1..], spans[0].end, n)
  }

  /** What lies outside the spans. */
  function Gaps(s: string, spans: seq<Span>, from: nat): string
    requires InOrder(spans, from, |s|)
    decreases spans
  {
    if spans == [] then s[from..]
    else
      InOrderEnds(spans, from, |s|);
      s[from..spans[0].start] + Gaps(s, spans[1..], spans[0].end)
  }

  lemma {:induction false} InOrderEnds(spans: seq<Span>, from: nat, n: nat)
    requires InOrder(spans, from, n)
    ensures from <= n && (spans != [] ==> spans[0].end <= n)
  {
    if spans != [] {
      InOrderEnds(spans[1..], spans[0].end, n);
    }
  }

  lemma {:induction false} CommentsInOrder(m: string, from: nat)
    requires from <= |m|
    ensures InOrder(Comments(m, from), from, |m|)
    decreases |m| - from
  {
    var n := NextComment(m, from);
    if n.Comment? {
      CommentsInOrder(m, n.span.end);
    }
  }

  datatype Dropping = Dropping(text: string, open: bool)

  /** The line without its comments, cut where one is left open. */
  function Dropped(raw: string): Dropping {
    var m := Mask(raw);
    CommentsInOrder(m, 0);
    var spans := Comments(m, 0);
    var rest, masked := Gaps(raw, spans, 0), Gaps(m, spans, 0);
    GapsAligned(raw, m, spans, 0);
    var i := Find(masked, OPENER, 0);
    if i < |masked| then Dropping(rest[..i], true) else Dropping(rest, false)
  }

  /** Blanked characters aside, the two are the same. */
  ghost predicate Masks(m: string, s: string) {
    |m| == |s| && forall i :: 0 <= i < |s| ==> m[i] == s[i] || m[i] == '_'
  }

  lemma {:induction false} MaskMasks(s: string, inSpan: bool)
    ensures Masks(MaskFrom(s, inSpan), s)
  {
    if s != "" {
      MaskMasks(s[1..], if s[0] == '`' then !inSpan else inSpan);
    }
  }

  /** The same cuts leave the copy aligned with the line. */
  lemma {:induction false} GapsAligned(s: string, m: string, spans: seq<Span>, from: nat)
    requires |m| == |s| && InOrder(spans, from, |s|)
    ensures |Gaps(m, spans, from)| == |Gaps(s, spans, from)|
    ensures Masks(m, s) ==> Masks(Gaps(m, spans, from), Gaps(s, spans, from))
    decreases spans
  {
    InOrderEnds(spans, from, |s|);
    if spans != [] {
      GapsAligned(s, m, spans[1..], spans[0].end);
    }
  }

  function EndBefore(spans: seq<Span>, k: nat): nat
    requires k <= |spans|
  {
    if k == 0 then 0 else spans[k - 1].end
  }

  lemma {:induction false} LaterInOrder(spans: seq<Span>, from: nat, k: nat, n: nat)
    requires k <= |spans| && InOrder(spans, from, n)
    ensures InOrder(spans[k..], if k == 0 then from else spans[k - 1].end, n)
  {
    if k > 0 {
      LaterInOrder(spans[1..], spans[0].end, k - 1, n);
      assert spans[1..][k - 1..] == spans[k..];
    } else {
      assert spans[0..] == spans;
    }
  }

  function Without(s: string, span: Span): string
    requires span.start <= span.end <= |s|
  {
    s[..span.start] + s[span.end..]
  }

  lemma WholeRest(s: string, spans: seq<Span>)
    requires InOrder(spans, 0, |s|)
    ensures s[..0] + Gaps(s, spans, 0) == Gaps(s, spans, 0)
  {
  }

  /** Cutting one more span out of the front part. */
  lemma CutBack(s: string, spans: seq<Span>, k: nat)
    requires k < |spans| && EndBefore(spans, k) <= spans[k].start <= spans[k].end <= |s|
    requires InOrder(spans[k + 1..], spans[k].end, |s|)
    ensures InOrder(spans[k..], EndBefore(spans, k), |s|)
    ensures var t := s[..spans[k].end] + Gaps(s, spans[k + 1..], spans[k].end);
      Without(t, spans[k]) == s[..EndBefore(spans, k)] + Gaps(s, spans[k..], EndBefore(spans, k))
  {
    assert spans[k..][1..] == spans[k + 1..];
    WithoutPart(s, EndBefore(spans, k), spans[k], Gaps(s, spans[k + 1..], spans[k].end));
  }

  lemma WithoutPart(s: string, p: nat, c: Span, rest: string)
    requires p <= c.start <= c.end <= |s|
    ensures Without(s[..c.end] + rest, c) == s[..p] + (s[p..c.start] + rest)
  {
    var t := s[..c.end] + rest;
    assert t[..c.start] == s[..p] + s[p..c.start];
    assert t[c.end..] == rest;
  }

  /** `_drop_comments`: the cuts run from the last match to the first, in the copy and in the line. */
  method DropComments(raw: string) returns (r: string, open: bool)
    ensures Dropping(r, open) == Dropped(raw)
  {
    var masked := Mask(raw);
    var spans := Comments(masked, 0);
    ghost var m := masked;
    CommentsInOrder(m, 0);
    GapsAligned(raw, m, spans, 0);
    r := raw;
    var k := |spans|;
    LaterInOrder(spans, 0, k, |raw|);
    InOrderEnds(spans[k..], EndBefore(spans, k), |raw|);
    while k > 0
      invariant 0 <= k <= |spans| && EndBefore(spans, k) <= |raw|
      invariant InOrder(spans[k..], EndBefore(spans, k), |raw|)
      invariant r == raw[..EndBefore(spans, k)] + Gaps(raw, spans[k..], EndBefore(spans, k))
      invariant masked == m[..EndBefore(spans, k)] + Gaps(m, spans[k..], EndBefore(spans, k))
    {
      k := k - 1;
      LaterInOrder(spans, 0, k, |raw|);
      CutBack(raw, spans, k);
      CutBack(m, spans, k);
      r := Without(r, spans[k]);
      masked := Without(masked, spans[k]);
    }
    assert spans[0..] == spans;
    WholeRest(raw, spans);
    WholeRest(m, spans);
    var i := Find(masked, OPENER, 0);
    open := i < |masked|;
    if open {
      r := r[..i];
    }
  }

  /** What is left, its code spans blanked, opens no comment. */
  lemma NoOpenerLeft(raw: string) returns (m: string)
    ensures Masks(m, Dropped(raw).text) && Find(m, OPENER, 0) == |m|
  {
    var spans := Comments(Mask(raw), 0);
    CommentsInOrder(Mask(raw), 0);
    MaskMasks(raw, false);
    GapsAligned(raw, Mask(raw), spans, 0);
    var masked := Gaps(Mask(raw), spans, 0);
    var i := Find(masked, OPENER, 0);
    m := masked[..i];
    forall k | 0 <= k < i
      ensures !At(m, OPENER, k)
    {
      assert !At(masked, OPENER, k);
      assert k + |OPENER| <= i ==> m[k..k + |OPENER|] == masked[k..k + |OPENER|];
    }
  }

  // ----- what stands in a comment does not matter

  /** Whether a code span is open behind the text. */
  predicate Open(s: string, inSpan: bool) {
    if s == "" then inSpan else Open(s[1..], if s[0] == '`' then !inSpan else inSpan)
  }

  lemma {:induction false} OpenCloses(s: string, inSpan: bool)
    requires Open(s, inSpan) != inSpan
    ensures '`' in s
  {
    if s[0] != '`' {
      OpenCloses(s[1..], inSpan);
    }
  }

  function MaskChar(c: char, inSpan: bool): char {
    if inSpan || c == '`' then '_' else c
  }

  lemma MaskStep(s: string, inSpan: bool)
    requires s != "" && (s[0] == '`' && !inSpan ==> '`' in s[1..])
    ensures MaskFrom(s, inSpan)
         == [MaskChar(s[0], inSpan)] + MaskFrom(s[1..], if s[0] == '`' then !inSpan else inSpan)
  {
  }

  lemma {:induction false} MaskConcat(a: string, b: string, inSpan: bool)
    requires !Open(a, inSpan)
    ensures MaskFrom(a + b, inSpan) == MaskFrom(a, inSpan) + Mask(b)
  {
    if a == "" {
      assert a + b == b;
    } else {
      assert (a + b)[1..] == a[1..] + b;
      var next := if a[0] == '`' then !inSpan else inSpan;
      MaskConcat(a[1..], b, next);
      if a[0] == '`' && !inSpan {
        OpenCloses(a[1..], true);
      }
      MaskStep(a, inSpan);
      MaskStep(a + b, inSpan);
      Prepend(MaskChar(a[0], inSpan), MaskFrom(a[1..], next), Mask(b));
    }
  }

  lemma Prepend(c: char, a: string, b: string)
    ensures [c] + (a + b) == ([c] + a) + b
  {
  }

  lemma {:induction false} MaskTickless(s: string)
    requires '`' !in s
    ensures Mask(s) == s && !Open(s, false)
  {
    if s != "" {
      MaskTickless(s[1..]);
    }
  }

  lemma FindIn(a: string, b: string, needle: string, from: nat)
    requires needle != "" && from <= |a| && Find(a, needle, from) < |a|
    ensures Find(a + b, needle, from) == Find(a, needle, from)
  {
    var i := Find(a, needle, from);
    forall k | from <= k <= i
      ensures At(a + b, needle, k) <==> At(a, needle, k)
    {
      assert i + |needle| <= |a|;
      assert (a + b)[k..k + |needle|] == a[k..k + |needle|];
    }
    FindIs(a + b, needle, from, i);
  }

  lemma FindShift(s: string, t: string, needle: string, k: nat, from: nat)
    requires needle != "" && k <= |s| && t == s[k..] && from <= |t|
    ensures Find(s, needle, k + from) == k + Find(t, needle, from)
  {
    var i := Find(t, needle, from);
    forall j | k + from <= j < |s|
      ensures At(s, needle, j) <==> At(t, needle, j - k)
    {
      if j + |needle| <= |s| {
        assert s[j..j + |needle|] == t[j - k..j - k + |needle|];
      }
    }
    if i < |t| {
      FindIs(s, needle, k + from, k + i);
    }
  }

  lemma NextShift(v: string, k: nat, from: nat)
    requires k + from <= |v|
    ensures NextComment(v, k + from) == MovedNext(NextComment(v[k..], from), k)
  {
    var u := v[k..];
    FindShift(v, u, OPENER, k, from);
    var i := Find(u, OPENER, from);
    if i < |u| {
      FindShift(v, u, CLOSER, k, i + |OPENER|);
    }
    NextMoved(v, u, k, from);
  }

  lemma NextMoved(v: string, u: string, k: nat, from: nat)
    requires |v| == k + |u| && from <= |u| && Find(v, OPENER, k + from) == k + Find(u, OPENER, from)
    requires var i := Find(u, OPENER, from);
      i < |u| ==> Find(v, CLOSER, k + (i + |OPENER|)) == k + Find(u, CLOSER, i + |OPENER|)
    ensures NextComment(v, k + from) == MovedNext(NextComment(u, from), k)
  {
  }

  function Moved(spans: seq<Span>, k: nat): seq<Span> {
    if spans == [] then [] else [Span(k + spans[0].start, k + spans[0].end)] + Moved(spans[1..], k)
  }

  function MovedNext(n: Next, k: nat): Next {
    match n
    case NoComment => NoComment
    case Comment(c) => Comment(Span(k + c.start, k + c.end))
  }

  lemma CommentsStep(m: string, from: nat, c: Span)
    requires from <= |m| && NextComment(m, from) == Comment(c)
    ensures c.end <= |m| && Comments(m, from) == [c] + Comments(m, c.end)
  {
  }

  /** The search from every place of a text. */
  function Table(m: string): (t: seq<Next>)
    ensures |t| == |m| + 1
  {
    seq(|m| + 1, i requires 0 <= i <= |m| => NextComment(m, i))
  }

  function Follow(table: seq<Next>, from: nat): seq<Span>
    decreases |table| - from
  {
    if from < |table| && table[from].Comment? && from < table[from].span.end then
      [table[from].span] + Follow(table, table[from].span.end)
    else []
  }

  lemma {:induction false} FollowIs(m: string, from: nat)
    requires from <= |m|
    ensures Comments(m, from) == Follow(Table(m), from)
    decreases |m| - from
  {
    assert Table(m)[from] == NextComment(m, from);
    match NextComment(m, from)
    case Comment(c) =>
      FollowIs(m, c.end);
      CommentsStep(m, from, c);
    case NoComment =>
  }

  lemma {:induction false} FollowMoved(t: seq<Next>, u: seq<Next>, k: nat, from: nat)
    requires |t| == k + |u|
    requires forall i :: 0 <= i < |u| ==> t[k + i] == MovedNext(u[i], k)
    ensures Follow(t, k + from) == Moved(Follow(u, from), k)
    decreases |u| - from
  {
    if from < |u| && u[from].Comment? && from < u[from].span.end {
      FollowMoved(t, u, k, u[from].span.end);
      assert t[k + from] == MovedNext(u[from], k);
    }
  }

  /** What stands before the place where the search begins does not matter. */
  lemma CommentsMoved(v: string, k: nat)
    requires k <= |v|
    ensures Comments(v, k) == Moved(Comments(v[k..], 0), k)
  {
    var t, u := Table(v), Table(v[k..]);
    forall i | 0 <= i < |u|
      ensures t[k + i] == MovedNext(u[i], k)
    {
      NextShift(v, k, i);
    }
    FollowMoved(t, u, k, 0);
    FollowIs(v, k);
    FollowIs(v[k..], 0);
  }

  lemma {:induction false} MovedInOrder(spans: seq<Span>, k: nat, from: nat, n: nat)
    requires InOrder(spans, from, n)
    ensures InOrder(Moved(spans, k), k + from, k + n)
    decreases spans
  {
    if spans != [] {
      MovedInOrder(spans[1..], k, spans[0].end, n);
      MovedCons(spans, k);
    }
  }

  lemma {:induction false} GapsMoved(s: string, spans: seq<Span>, k: nat, from: nat)
    requires k + from <= |s| && InOrder(spans, from, |s| - k)
    ensures InOrder(Moved(spans, k), k + from, |s|)
    ensures Gaps(s, Moved(spans, k), k + from) == Gaps(s[k..], spans, from)
    decreases spans
  {
    MovedInOrder(spans, k, from, |s| - k);
    if spans != [] {
      InOrderEnds(spans, from, |s| - k);
      GapsMoved(s, spans[1..], k, spans[0].end);
      MovedCons(spans, k);
      SliceMoved(s, k, from, spans[0].start);
      GapsStep(s, Moved(spans, k), k + from);
      GapsStep(s[k..], spans, from);
    } else {
      assert s[k..][from..] == s[k + from..];
    }
  }

  lemma GapsStep(s: string, spans: seq<Span>, from: nat)
    requires spans != [] && InOrder(spans, from, |s|)
    ensures from <= spans[0].start <= spans[0].end <= |s|
    ensures Gaps(s, spans, from) == s[from..spans[0].start] + Gaps(s, spans[1..], spans[0].end)
  {
    InOrderEnds(spans, from, |s|);
  }

  lemma MovedCons(spans: seq<Span>, k: nat)
    requires spans != []
    ensures var m := Moved(spans, k);
      m != [] && m[0] == Span(k + spans[0].start, k + spans[0].end) && m[1..] == Moved(spans[1..], k)
  {
  }

  lemma SliceMoved(s: string, k: nat, i: nat, j: nat)
    requires i <= j && k + j <= |s|
    ensures s[k..][i..j] == s[k + i..k + j]
  {
  }

  /** The gaps before a cut, and those behind it. */
  lemma {:induction false} GapsSplit(s: string, front: seq<Span>, c: Span, back: seq<Span>, from: nat)
    requires c.start <= c.end <= |s| && InOrder(front, from, c.start) && InOrder(back, c.end, |s|)
    ensures InOrder(front + ([c] + back), from, |s|)
    ensures Gaps(s, front + ([c] + back), from) == Gaps(s[..c.start], front, from) + Gaps(s, back, c.end)
    decreases front
  {
    var all := front + ([c] + back);
    InOrderEnds(front, from, c.start);
    if front == [] {
      assert all == [c] + back && all[1..] == back;
      assert s[..c.start][from..] == s[from..c.start];
    } else {
      assert all[0] == front[0] && all[1..] == front[1..] + ([c] + back);
      GapsSplit(s, front[1..], c, back, front[0].end);
      assert s[..c.start][from..front[0].start] == s[from..front[0].start];
      Prefixed(s[from..front[0].start], Gaps(s[..c.start], front[1..], front[0].end), Gaps(s, back, c.end));
    }
  }

  lemma Prefixed<T>(a: seq<T>, b: seq<T>, c: seq<T>)
    ensures a + (b + c) == (a + b) + c
  {
  }

  /** The first opener from a place on that no closer follows. */
  function LastOpener(a: string, from: nat): (i: nat)
    requires from <= |a|
    ensures from <= i <= |a|
    decreases |a| - from
  {
    match NextComment(a, from)
    case Comment(c) => LastOpener(a, c.end)
    case NoComment => Find(a, OPENER, from)
  }

  /** The comment that is open behind `a` and an opener ends right behind `c`. */
  predicate Ends(a: string, c: string) {
    Find(a + (OPENER + c + CLOSER), CLOSER, LastOpener(a, 0) + |OPENER|) == |a| + |OPENER| + |c|
  }

  /** It does not end in `c`. */
  predicate RunsOn(a: string, c: string) {
    Find(a + (OPENER + c), CLOSER, LastOpener(a, 0) + |OPENER|) == |a + (OPENER + c)|
  }

  /** Behind `x`, code spans blanked, `c` is what a comment says to its end, and opens no code span it does not close. */
  predicate Quiet(x: string, c: string) {
    Ends(Mask(x), Mask(c)) && !Open(c, false)
  }

  /** Behind `x`, code spans blanked, a comment that says `c` runs on. */
  predicate Unclosed(x: string, c: string) {
    RunsOn(Mask(x), Mask(c))
  }

  /** No part of an opener can end a text and go on in the next. */
  lemma NoOpener(a: string, rest: string, k: nat)
    requires k < |a| && !At(a, OPENER, k) && StartsWith(rest, OPENER)
    ensures !At(a + rest, OPENER, k)
  {
    var t := a + rest;
    if k + |OPENER| <= |a| {
      assert t[k..k + |OPENER|] == a[k..k + |OPENER|];
    } else {
      assert t[|a|] == rest[..|OPENER|][0] == '<';
      assert t[k..k + |OPENER|][|a| - k] == t[|a|];
    }
  }

  /** A line around a comment. */
  function Around(x: string, c: string, y: string): string {
    x + (OPENER + c + CLOSER) + y
  }

  /** A comment found in `a` is found there whatever follows. */
  lemma SameNext(a: string, rest: string, from: nat)
    requires from <= |a| && NextComment(a, from).Comment?
    ensures NextComment(a + rest, from) == NextComment(a, from)
  {
    FindIn(a, rest, OPENER, from);
    FindIn(a, rest, CLOSER, Find(a, OPENER, from) + |OPENER|);
  }

  /** The comments of a line around one: those of the part before it, one to its end, and those behind. */
  lemma CommentsAround(a: string, c: string, b: string, e: nat)
    requires Ends(a, c) && e == |a| + |OPENER| + |c| + |CLOSER|
    ensures Comments(Around(a, c, b), 0) == Comments(a, 0) + ([Span(LastOpener(a, 0), e)] + Moved(Comments(b, 0), e))
  {
    var t := Around(a, c, b);
    CommentsMoved(t, e);
    assert t[e..] == b;
    SearchThrough(a, c, b, e, 0);
  }

  lemma {:induction false} SearchThrough(a: string, c: string, b: string, e: nat, from: nat)
    requires Ends(a, c) && e == |a| + |OPENER| + |c| + |CLOSER|
    requires from <= |a| && LastOpener(a, from) == LastOpener(a, 0)
    ensures var t := Around(a, c, b);
      Comments(t, from) == Comments(a, from) + ([Span(LastOpener(a, 0), e)] + Comments(t, e))
    decreases |a| - from
  {
    var t := Around(a, c, b);
    var tail := [Span(LastOpener(a, 0), e)] + Comments(t, e);
    match NextComment(a, from)
    case Comment(k) =>
      NextAround(a, c, b, from);
      SearchThrough(a, c, b, e, k.end);
      CommentsStep(t, from, k);
      Prefixed([k], Comments(a, k.end), tail);
    case NoComment =>
      LastAround(a, c, b, e, from);
      CommentsStep(t, from, Span(LastOpener(a, 0), e));
      assert [] + tail == tail;
  }

  lemma NextAround(a: string, c: string, b: string, from: nat)
    requires from <= |a| && NextComment(a, from).Comment?
    ensures NextComment(Around(a, c, b), from) == NextComment(a, from)
  {
    Regroup(a, OPENER + c + CLOSER, b);
    SameNext(a, (OPENER + c + CLOSER) + b, from);
  }

  lemma LastAround(a: string, c: string, b: string, e: nat, from: nat)
    requires Ends(a, c) && e == |a| + |OPENER| + |c| + |CLOSER|
    requires from <= |a| && NextComment(a, from) == NoComment && LastOpener(a, 0) == Find(a, OPENER, from)
    ensures NextComment(Around(a, c, b), from) == Comment(Span(LastOpener(a, 0), e))
  {
    OpenerFrom(a, c, b, from);
    FindIn(a + (OPENER + c + CLOSER), b, CLOSER, LastOpener(a, 0) + |OPENER|);
  }

  lemma Regroup(a: string, b: string, c: string)
    ensures (a + b) + c == a + (b + c)
  {
  }

  lemma OpenerFrom(a: string, c: string, b: string, from: nat)
    requires from <= |a|
    ensures Find(Around(a, c, b), OPENER, from) == Find(a, OPENER, from)
  {
    var rest := (OPENER + c + CLOSER) + b;
    assert Around(a, c, b) == a + rest;
    assert rest[..|OPENER|] == OPENER;
    OpenerBefore(a, rest, from);
  }

  lemma OpenerBefore(a: string, rest: string, from: nat)
    requires from <= |a| && StartsWith(rest, OPENER)
    ensures Find(a + rest, OPENER, from) == Find(a, OPENER, from)
  {
    var t := a + rest;
    if Find(a, OPENER, from) < |a| {
      FindIn(a, rest, OPENER, from);
    } else {
      assert At(t, OPENER, |a|) by { assert t[|a|..|a| + |OPENER|] == rest[..|OPENER|]; }
      forall k | from <= k < |a|
        ensures !At(t, OPENER, k)
      {
        NoOpener(a, rest, k);
      }
      FindIs(t, OPENER, from, |a|);
    }
  }

  lemma {:induction false} BeforeLast(a: string, from: nat)
    requires from <= |a|
    ensures InOrder(Comments(a, from), from, LastOpener(a, from))
    decreases |a| - from
  {
    var n := NextComment(a, from);
    if n.Comment? {
      BeforeLast(a, n.span.end);
    }
  }

  /** What is left of a line with a comment, in terms of the parts around it. */
  function Left(x: string, a: string, y: string, b: string): string
    requires |a| == |x| && |b| == |y|
  {
    BeforeLast(a, 0);
    CommentsInOrder(b, 0);
    Gaps(x[..LastOpener(a, 0)], Comments(a, 0), 0) + Gaps(y, Comments(b, 0), 0)
  }

  lemma GapsAround(x: string, a: string, c: string, d: string, y: string, b: string)
    requires |a| == |x| && |b| == |y| && |d| == |c| && Ends(a, c)
    ensures InOrder(Comments(Around(a, c, b), 0), 0, |Around(x, d, y)|)
    ensures Gaps(Around(x, d, y), Comments(Around(a, c, b), 0), 0) == Left(x, a, y, b)
  {
    var all, e := Comments(Around(a, c, b), 0), |a| + |OPENER| + |c| + |CLOSER|;
    CommentsAround(a, c, b, e);
    LeftIs(x, a, d, y, b, e, all);
  }

  lemma LeftIs(x: string, a: string, d: string, y: string, b: string, e: nat, all: seq<Span>)
    requires |a| == |x| && |b| == |y| && e == |x| + |OPENER| + |d| + |CLOSER|
    requires all == Comments(a, 0) + ([Span(LastOpener(a, 0), e)] + Moved(Comments(b, 0), e))
    ensures InOrder(all, 0, |Around(x, d, y)|) && Gaps(Around(x, d, y), all, 0) == Left(x, a, y, b)
  {
    BeforeLast(a, 0);
    CommentsInOrder(b, 0);
    GapsOfParts(x, d, y, LastOpener(a, 0), e, Comments(a, 0), Comments(b, 0), all);
  }

  lemma GapsOfParts(x: string, c: string, y: string, i: nat, e: nat, front: seq<Span>, back: seq<Span>, all: seq<Span>)
    requires i <= |x| && InOrder(front, 0, i) && InOrder(back, 0, |y|)
    requires e == |x| + |OPENER| + |c| + |CLOSER| && all == front + ([Span(i, e)] + Moved(back, e))
    ensures InOrder(all, 0, |Around(x, c, y)|)
    ensures Gaps(Around(x, c, y), all, 0) == Gaps(x[..i], front, 0) + Gaps(y, back, 0)
  {
    var s := Around(x, c, y);
    assert s[e..] == y && s[..i] == x[..i];
    GapsMoved(s, back, e, 0);
    GapsSplit(s, front, Span(i, e), Moved(back, e), 0);
  }

  /** Two lines that differ in what a comment says leave the same prose. */
  lemma CommentTextIsIrrelevant(x: string, c: string, d: string, y: string)
    requires Quiet(x, c) && Quiet(x, d) && !Open(x, false)
    ensures Dropped(Around(x, c, y)) == Dropped(Around(x, d, y))
  {
    DroppedAround(x, c, y);
    DroppedAround(x, d, y);
  }

  lemma DroppedAround(x: string, c: string, y: string)
    requires Quiet(x, c) && !Open(x, false)
    ensures var a, b := Mask(x), Mask(y);
      && |Left(a, a, b, b)| == |Left(x, a, y, b)|
      && var i := Find(Left(a, a, b, b), OPENER, 0);
         Dropped(Around(x, c, y))
           == if i < |Left(a, a, b, b)| then Dropping(Left(x, a, y, b)[..i], true)
              else Dropping(Left(x, a, y, b), false)
  {
    var raw := Around(x, c, y);
    MaskAround(x, c, y);
    GapsAround(x, Mask(x), Mask(c), c, y, Mask(y));
    GapsAround(Mask(x), Mask(x), Mask(c), Mask(c), Mask(y), Mask(y));
    GapsAligned(raw, Mask(raw), Comments(Mask(raw), 0), 0);
  }

  lemma MaskAround(x: string, c: string, y: string)
    requires !Open(c, false) && !Open(x, false)
    ensures Mask(Around(x, c, y)) == Around(Mask(x), Mask(c), Mask(y))
  {
    var tail := CLOSER + y;
    MaskTickless(OPENER);
    MaskTickless(CLOSER);
    MaskConcat(CLOSER, y, false);
    MaskConcat(c, tail, false);
    MaskConcat(OPENER, c + tail, false);
    MaskConcat(x, OPENER + (c + tail), false);
    Regrouped(x, OPENER, c, CLOSER, y);
    Regrouped(Mask(x), OPENER, Mask(c), CLOSER, Mask(y));
  }

  lemma Regrouped(x: string, o: string, c: string, e: string, y: string)
    ensures x + (o + c + e) + y == x + (o + (c + (e + y)))
  {
  }

  /** A line whose last comment runs on. */
  function Opening(x: string, c: string): string {
    x + (OPENER + c)
  }

  /** What such a line leaves does not depend on what the comment says. */
  lemma DroppedOpening(x: string, c: string)
    requires Unclosed(x, c) && !Open(x, false)
    ensures Dropped(Opening(x, c)) == Dropping(Dropped(x).text, true)
  {
    var a, rest := Mask(x), OPENER + Mask(c);
    var spans := Comments(a, 0);
    MaskOpening(x, c);
    SearchBefore(a, rest, 0);
    CommentsInOrder(a, 0);
    GapsExtend(x, OPENER + c, spans, 0);
    GapsExtend(a, rest, spans, 0);
    GapsAligned(x, a, spans, 0);
    CutAtOpener(Gaps(x, spans, 0), OPENER + c, Gaps(a, spans, 0), rest);
  }

  lemma MaskOpening(x: string, c: string)
    requires !Open(x, false)
    ensures Mask(Opening(x, c)) == Mask(x) + (OPENER + Mask(c))
  {
    MaskTickless(OPENER);
    MaskConcat(OPENER, c, false);
    MaskConcat(x, OPENER + c, false);
  }

  lemma {:induction false} SearchBefore(a: string, rest: string, from: nat)
    requires StartsWith(rest, OPENER) && from <= |a| && LastOpener(a, from) == LastOpener(a, 0)
    requires Find(a + rest, CLOSER, LastOpener(a, 0) + |OPENER|) == |a + rest|
    ensures Comments(a + rest, from) == Comments(a, from)
    decreases |a| - from
  {
    match NextComment(a, from)
    case Comment(k) =>
      SameNext(a, rest, from);
      SearchBefore(a, rest, k.end);
    case NoComment =>
      OpenerBefore(a, rest, from);
  }

  /** The text kept ends at the first opener, in a copy of its length. */
  lemma CutAtOpener(x: string, c: string, a: string, rest: string)
    requires |a| == |x| && |rest| == |c| && StartsWith(rest, OPENER)
    ensures var i := Find(a + rest, OPENER, 0);
      i == Find(a, OPENER, 0) && i < |a + rest| && (x + c)[..i] == x[..i] && x[..|x|] == x
  {
    OpenerBefore(a, rest, 0);
  }

  lemma {:induction false} GapsExtend(s: string, rest: string, spans: seq<Span>, from: nat)
    requires InOrder(spans, from, |s|)
    ensures InOrder(spans, from, |s + rest|) && Gaps(s + rest, spans, from) == Gaps(s, spans, from) + rest
    decreases spans
  {
    InOrderEnds(spans, from, |s|);
    if spans == [] {
      assert (s + rest)[from..] == s[from..] + rest;
    } else {
      GapsExtend(s, rest, spans[1..], spans[0].end);
      InOrderEnds(spans, from, |s + rest|);
      assert (s + rest)[from..spans[0].start] == s[from..spans[0].start];
      Prefixed(s[from..spans[0].start], Gaps(s, spans[1..], spans[0].end), rest);
    }
  }

  // ----- when it does matter

  /** The copy `k` with more of it blanked, and everything behind it. */
  ghost predicate Blanks(m: string, k: string) {
    && |m| >= |k| && (forall i :: 0 <= i < |k| ==> m[i] == k[i] || m[i] == '_')
    && (forall i :: |k| <= i < |m| ==> m[i] == '_')
  }

  /** Behind an open code span everything up to a backtick is blanked. */
  lemma {:induction false} OpenMask(c: string, inSpan: bool)
    requires Open(c, inSpan)
    ensures Blanks(MaskFrom(c + (CLOSER + "`"), inSpan), MaskFrom(c, inSpan))
  {
    var t := c + (CLOSER + "`");
    if c == "" {
      assert t == CLOSER + "`";
      TailMask();
    } else {
      var next := if c[0] == '`' then !inSpan else inSpan;
      assert t[1..] == c[1..] + (CLOSER + "`") && t[|t| - 1] == '`';
      assert t[1..][|t| - 2] == '`';
      OpenMask(c[1..], next);
      MaskStep(t, inSpan);
      if c[0] == '`' && !inSpan && '`' !in c[1..] {
        NoTick(c[1..]);
        forall i | 0 <= i < |c|
          ensures MaskFrom(t, inSpan)[i] == '_'
        {
          assert i > 0 ==> MaskFrom(t, inSpan)[i] == MaskFrom(t[1..], true)[i - 1];
        }
      } else {
        MaskStep(c, inSpan);
      }
    }
  }

  lemma TailMask()
    ensures MaskFrom(CLOSER + "`", true) == "____"
  {
    assert CLOSER + "`" == "-->`";
    MaskStep("-->`", true);
    MaskStep("->`", true);
    MaskStep(">`", true);
    MaskStep("`", true);
  }

  lemma {:induction false} NoTick(s: string)
    requires '`' !in s
    ensures forall i :: 0 <= i < |s| ==> MaskFrom(s, true)[i] == '_'
  {
    if s != "" {
      NoTick(s[1..]);
      MaskStep(s, true);
    }
  }

  /** A code span left open in a comment and closed behind it hides the comment's end. */
  lemma HiddenEnd(x: string, c: string)
    requires Ends(Mask(x), Mask(c)) && Open(c, false)
    ensures Unclosed(x, c + (CLOSER + "`"))
  {
    OpenMask(c, false);
    OverwrittenRunsOn(Mask(x), Mask(c + (CLOSER + "`")), Mask(c));
  }

  lemma OverwrittenRunsOn(a: string, m: string, k: string)
    requires Ends(a, k) && Blanks(m, k)
    ensures RunsOn(a, m)
  {
    Overwritten(a, OPENER, m, k, CLOSER);
    NoneBelow(a + (OPENER + m), a + (OPENER + k + CLOSER), |a| + |OPENER| + |k|, LastOpener(a, 0) + |OPENER|);
  }

  lemma Overwritten(a: string, o: string, m: string, k: string, e: string)
    requires Blanks(m, k)
    ensures var t, u, p := a + (o + m), a + (o + k + e), |a| + |o| + |k|;
      forall i :: 0 <= i < |t| ==> t[i] == '_' || (i < p && t[i] == u[i])
  {
    var t, u, q := a + (o + m), a + (o + k + e), |a| + |o|;
    forall i | 0 <= i < |t|
      ensures t[i] == '_' || (i < q + |k| && t[i] == u[i])
    {
      if i >= q {
        assert t[i] == m[i - q];
        assert i < q + |k| ==> u[i] == k[i - q];
      }
    }
  }

  lemma NoneBelow(t: string, u: string, p: nat, from: nat)
    requires from <= |t| && from <= |u| && Find(u, CLOSER, from) == p && p <= |u|
    requires forall i :: 0 <= i < |t| ==> t[i] == '_' || (i < p && t[i] == u[i])
    ensures Find(t, CLOSER, from) == |t|
  {
    forall k | from <= k < |t|
      ensures !At(t, CLOSER, k)
    {
      CloserAt(t, u, p, k);
    }
  }

  lemma CloserAt(t: string, u: string, p: nat, k: nat)
    requires p <= |u| && forall i :: 0 <= i < |t| ==> t[i] == '_' || (i < p && t[i] == u[i])
    ensures At(t, CLOSER, k) ==> k < p && At(u, CLOSER, k)
  {
    if At(t, CLOSER, k) {
      var s := t[k..k + |CLOSER|];
      assert t[k] == s[0] && t[k + 1] == s[1] && t[k + 2] == s[2];
      assert u[k..k + |CLOSER|] == s;
    }
  }

  /** Such a line is cut where the comment opens, if a backtick stands behind the comment. */
  lemma BacktickHidesEnd(x: string, c: string)
    requires Ends(Mask(x), Mask(c)) && !Open(x, false) && Open(c, false)
    ensures Dropped(Around(x, c, "`")) == Dropping(Dropped(x).text, true)
  {
    HiddenEnd(x, c);
    DroppedOpening(x, c + (CLOSER + "`"));
    Joined(x, OPENER, c, CLOSER, "`");
  }

  lemma Joined(x: string, o: string, c: string, e: string, y: string)
    ensures x + (o + c + e) + y == x + (o + (c + (e + y)))
  {
    Regrouped(x, o, c, e, y);
  }

  /** Where a comment ends behind some text, so does an empty one. */
  lemma EmptyEnds(a: string, c: string)
    requires Ends(a, c)
    ensures Ends(a, "")
  {
    var t := a + (OPENER + "" + CLOSER);
    var p, from := |a| + |OPENER|, LastOpener(a, 0) + |OPENER|;
    assert t[p..p + |CLOSER|] == CLOSER;
    forall k | from <= k < p
      ensures !At(t, CLOSER, k)
    {
      EmptyCloser(a, c, k);
    }
    FindIs(t, CLOSER, from, p);
  }

  lemma EmptyCloser(a: string, c: string, k: nat)
    requires k < |a| + |OPENER|
    ensures At(a + (OPENER + "" + CLOSER), CLOSER, k) ==> At(a + (OPENER + c + CLOSER), CLOSER, k)
  {
    var t, u, p := a + (OPENER + "" + CLOSER), a + (OPENER + c + CLOSER), |a| + |OPENER|;
    if At(t, CLOSER, k) {
      assert t[k + 2] == t[k..k + |CLOSER|][2];
      assert t[p] == t[p + 1] == '-';
      assert u[k..k + |CLOSER|] == t[k..k + |CLOSER|];
    }
  }

  lemma EmptyLine()
    ensures Ends("", "")
  {
    var t := "" + (OPENER + "" + CLOSER);
    assert t == "<!---->";
    assert t[4..4 + |CLOSER|] == CLOSER;
    FindIs(t, CLOSER, 4, 4);
  }

  lemma EmptyLeaves()
    ensures Dropped(Around("", "", "`")) == Dropping("`", false)
  {
    assert Mask("") == "" && Mask("`") == "`";
    EmptyLine();
    DroppedAround("", "", "`");
    assert Comments("`", 0) == [] && Comments("", 0) == [];
    assert Left("", "", "`", "`") == "`";
  }

  /** The number of backticks. */
  function Ticks(s: string): nat {
    if s == "" then 0 else (if s[0] == '`' then 1 else 0) + Ticks(s[1..])
  }

  lemma {:induction false} OpenIff(s: string, inSpan: bool)
    ensures Open(s, inSpan) <==> (Ticks(s) % 2 == 1) != inSpan
  {
    if s != "" {
      OpenIff(s[1..], if s[0] == '`' then !inSpan else inSpan);
    }
  }

  /** What a comment says does not matter, wherever it stands on a line, if and only if it closes every code span it
      opens: if and only if the number of its backticks is even. */
  lemma CommentTextMattersIff(c: string)
    requires Ends("", Mask(c))
    ensures (forall x, y :: !Open(x, false) && Ends(Mask(x), Mask(c)) ==> Dropped(Around(x, c, y)) == Dropped(Around(x, "", y)))
       <==> Ticks(c) % 2 == 0
  {
    OpenIff(c, false);
    if Open(c, false) {
      BacktickHidesEnd("", c);
      EmptyLeaves();
      assert Mask("") == "";
    } else {
      forall x, y | !Open(x, false) && Ends(Mask(x), Mask(c))
        ensures Dropped(Around(x, c, y)) == Dropped(Around(x, "", y))
      {
        EmptyEnds(Mask(x), Mask(c));
        CommentTextIsIrrelevant(x, c, "", y);
      }
    }
  }

  /** The character is part of a code span: behind an odd number of backticks with another to come, or a backtick with a
      partner. */
  predicate InSpan(s: string, i: nat)
    requires i < |s|
  {
    if s[i] == '`' then Ticks(s[..i]) % 2 == 1 || '`' in s[i + 1..]
    else Ticks(s[..i]) % 2 == 1 && '`' in s[i + 1..]
  }

  /** The copy has a blank for each character of a code span, and all others as they are. */
  lemma MaskIs(s: string, i: nat)
    requires i < |s|
    ensures Mask(s)[i] == if InSpan(s, i) then '_' else s[i]
  {
    MaskFromIs(s, false, i);
  }

  lemma {:induction false} MaskFromIs(s: string, inSpan: bool, i: nat)
    requires i < |s| && (inSpan ==> '`' in s)
    ensures var odd := (Ticks(s[..i]) % 2 == 1) != inSpan;
      MaskFrom(s, inSpan)[i]
      == if (if s[i] == '`' then odd || '`' in s[i + 1..] else odd && '`' in s[i + 1..]) then '_' else s[i]
  {
    assert s == [s[0]] + s[1..];
    if i == 0 {
      assert s[..0] == "";
      assert s[0] != '`' && inSpan ==> '`' in s[1..];
    } else if s[0] == '`' && !inSpan && '`' !in s[1..] {
      NoTicks(s[1..i]);
      assert s[..i][1..] == s[1..i];
      assert '`' !in s[i + 1..] && s[i] in s[1..];
    } else {
      MaskFromIs(s[1..], if s[0] == '`' then !inSpan else inSpan, i - 1);
      assert s[..i][1..] == s[1..][..i - 1] && s[1..][i..] == s[i + 1..];
    }
  }

  lemma {:induction false} NoTicks(s: string)
    requires '`' !in s
    ensures Ticks(s) == 0
  {
    if s != "" {
      NoTicks(s[1..]);
    }
  }

  // ----- what is left of a line

  /** A line that opens no comment outside code spans stays as it is. */
  lemma NoCommentStays(raw: string)
    requires Find(Mask(raw), OPENER, 0) == |raw|
    ensures Dropped(raw) == Dropping(raw, false)
  {
    assert NextComment(Mask(raw), 0) == NoComment;
    assert raw[0..] == raw && Mask(raw)[0..] == Mask(raw);
  }

  /** The mark does not stand in the text, and does not begin at its end. */
  predicate IsFreeOf(a: string, mark: string)
    requires mark != ""
  {
    Find(a, mark, 0) == |a| && forall n :: 0 < n < |mark| && n <= |a| ==> a[|a| - n..] != mark[..n]
  }

  lemma NotAcross(a: string, rest: string, mark: string, k: nat)
    requires mark != "" && IsFreeOf(a, mark) && k < |a|
    ensures !At(a + rest, mark, k)
  {
    var n := |a| - k;
    if n < |mark| {
      StartAt(a, rest, mark, k);
      assert a[|a| - n..] != mark[..n];
    } else {
      assert (a + rest)[k..k + |mark|] == a[k..k + |mark|];
      assert !At(a, mark, k);
    }
  }

  lemma StartAt(a: string, rest: string, mark: string, k: nat)
    requires k < |a| < k + |mark|
    ensures At(a + rest, mark, k) ==> a[k..] == mark[..|a| - k]
  {
    var t := a + rest;
    if At(t, mark, k) {
      assert t[k..k + |mark|][..|a| - k] == a[k..];
    }
  }

  lemma AtBehind(a: string, rest: string, mark: string, k: nat)
    ensures At(a + rest, mark, |a| + k) <==> At(rest, mark, k)
  {
    assert k + |mark| <= |rest| ==> (a + rest)[|a| + k..|a| + k + |mark|] == rest[k..k + |mark|];
  }

  lemma FindUpTo(s: string, mark: string, q: nat)
    requires mark != "" && q <= |s| && (q < |s| ==> At(s, mark, q)) && forall k :: 0 <= k < q ==> !At(s, mark, k)
    ensures Find(s, mark, 0) == q
  {
  }

  lemma FoundLater(a: string, rest: string, mark: string)
    requires mark != "" && IsFreeOf(a, mark)
    ensures Find(a + rest, mark, 0) == |a| + Find(rest, mark, 0)
  {
    var j := Find(rest, mark, 0);
    forall k | 0 <= k < |a| + j
      ensures !At(a + rest, mark, k)
    {
      if k < |a| {
        NotAcross(a, rest, mark, k);
      } else {
        AtBehind(a, rest, mark, k - |a|);
      }
    }
    AtBehind(a, rest, mark, j);
    FindUpTo(a + rest, mark, |a| + j);
  }

  /** A comment is cut out, and nothing else: what stands before it stays, and what follows is left as it would be alone. */
  lemma CommentIsCut(x: string, c: string, y: string)
    requires Quiet(x, c) && !Open(x, false) && IsFreeOf(Mask(x), OPENER)
    ensures Dropped(Around(x, c, y)) == Dropping(x + Dropped(y).text, Dropped(y).open)
  {
    var a, b := Mask(x), Mask(y);
    DroppedAround(x, c, y);
    LeftBehind(x, a, y, b);
    LeftBehind(a, a, b, b);
    DroppedIs(y, b);
    FoundLater(a, Gaps(b, Comments(b, 0), 0), OPENER);
    CutBehind(x, Gaps(y, Comments(b, 0), 0), Find(Gaps(b, Comments(b, 0), 0), OPENER, 0));
  }

  lemma CutBehind(x: string, z: string, i: nat)
    requires i <= |z|
    ensures (x + z)[..|x| + i] == x + z[..i]
  {
  }

  lemma DroppedIs(y: string, b: string)
    requires b == Mask(y)
    ensures InOrder(Comments(b, 0), 0, |y|) && |Gaps(b, Comments(b, 0), 0)| == |Gaps(y, Comments(b, 0), 0)|
    ensures var z, w := Gaps(y, Comments(b, 0), 0), Gaps(b, Comments(b, 0), 0); var i := Find(w, OPENER, 0);
      Dropped(y) == if i < |w| then Dropping(z[..i], true) else Dropping(z, false)
  {
    CommentsInOrder(b, 0);
    GapsAligned(y, b, Comments(b, 0), 0);
  }

  lemma LeftBehind(x: string, a: string, y: string, b: string)
    requires |a| == |x| && |b| == |y| && Find(a, OPENER, 0) == |a|
    ensures InOrder(Comments(b, 0), 0, |y|) && Left(x, a, y, b) == x + Gaps(y, Comments(b, 0), 0)
  {
    CommentsInOrder(b, 0);
    assert NextComment(a, 0) == NoComment;
    assert x[..|a|] == x && x[0..] == x;
  }
}
