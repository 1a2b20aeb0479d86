/** What the prose scan ignores, and what it keeps: verbatim text cannot reach the blocks, and every character
    of a block knows its line. */
module ProseFacts {
  import opened TextLines
  import opened InlineComments
  import opened ProseScanner

  // ----- verbatim text, told apart without looking at prose

  datatype Mode = Outside | InFence(run: string) | InComment

  function ModeOf(s: State): Mode {
    if s.fence.Fence? then InFence(s.fence.run) else if s.inComment then InComment else Outside
  }

  datatype Behind = Nothing | Behind(text: string)

  /** What follows the first comment end. */
  function AfterCloser(raw: string): Behind {
    var i := Find(raw, CLOSER, 0);
    if i == |raw| then Nothing else Behind(raw[i + |CLOSER|..])
  }

  function ModeAfterComment(b: Behind): Mode {
    match b
    case Nothing => InComment
    case Behind(text) => if Dropped(text).open then InComment else Outside
  }

  /** How a line moves between prose, fence and comment. */
  function NextMode(mode: Mode, raw: string): Mode
    requires mode.InFence? ==> mode.run != ""
  {
    match mode
    case InFence(run) => if Closes(Strip(raw), run) then Outside else mode
    case InComment => ModeAfterComment(AfterCloser(raw))
    case Outside =>
      if OpensFence(Strip(raw)).Fence? then InFence(OpensFence(Strip(raw)).run)
      else if StartsWith(Strip(raw), OPENER) then ModeAfterComment(AfterCloser(BehindOpener(raw)))
      else if Dropped(raw).open then InComment else Outside
  }

  /** The scanner is never in a fence and a comment at once. */
  predicate Sound(s: State) {
    Valid(s) && (s.fence.Fence? ==> !s.inComment)
  }

  lemma CommentMoves(s: State, raw: string)
    requires s.fence.NoFence?
    ensures var t := AfterComment(s, raw).state;
      t.fence.NoFence? && ModeOf(t) == ModeAfterComment(AfterCloser(raw))
  {
  }

  lemma SkipMoves(s: State, raw: string)
    requires Sound(s)
    ensures Sound(Skip(s, raw).state) && ModeOf(Skip(s, raw).state) == NextMode(ModeOf(s), raw)
  {
    if s.fence.Fence? {
    } else if s.inComment {
      CommentMoves(s, raw);
    } else if OpensFence(Strip(raw)).Fence? {
    } else if StartsWith(Strip(raw), OPENER) {
      CommentMoves(Flush(s), BehindOpener(raw));
    }
  }

  lemma StepMoves(m: Markup, s: State, line: nat, raw: string)
    requires Sound(s)
    ensures Sound(Step(m, s, line, raw)) && ModeOf(Step(m, s, line, raw)) == NextMode(ModeOf(s), raw)
  {
    SkipMoves(s, raw);
  }

  /** The same text around a comment, whose texts may differ. */
  ghost predicate Twins(x: string, c: string, d: string, y: string, a: string, b: string) {
    Quiet(x, c) && Quiet(x, d) && !Open(x, false) && a == Around(x, c, y) && b == Around(x, d, y)
  }

  /** The same text before a comment that runs on. */
  ghost predicate OpenTwins(x: string, c: string, d: string, a: string, b: string) {
    Unclosed(x, c) && Unclosed(x, d) && !Open(x, false) && a == Opening(x, c) && b == Opening(x, d)
  }

  /** The same prose, with a comment that may say something else. */
  ghost predicate SameRest(a: string, b: string) {
    a == b || (exists x, c, d, y :: Twins(x, c, d, y, a, b)) || exists x, c, d :: OpenTwins(x, c, d, a, b)
  }

  ghost predicate SameBehind(a: Behind, b: Behind) {
    a.Behind? == b.Behind? && (a.Behind? ==> SameRest(a.text, b.text))
  }

  /** The lines are the same, or differ only in fenced code, in a fence's info string, or in what comments say: one that
      ends on the line, one that starts it, one in the prose, or one that runs on. */
  ghost predicate SameProse(mode: Mode, a: string, b: string)
    requires mode.InFence? ==> mode.run != ""
  {
    a == b
    || match mode
       case InFence(run) => !Closes(Strip(a), run) && !Closes(Strip(b), run)
       case InComment => SameBehind(AfterCloser(a), AfterCloser(b))
       case Outside => SameStart(a, b) && SameOutside(a, b)
  }

  /** Both open this fence, or none does, and both start with a comment, or none does. */
  predicate SameStart(a: string, b: string) {
    OpensFence(Strip(a)) == OpensFence(Strip(b)) && (StartsWith(Strip(a), OPENER) <==> StartsWith(Strip(b), OPENER))
  }

  ghost predicate SameOutside(a: string, b: string) {
    if OpensFence(Strip(a)).Fence? then true
    else if StartsWith(Strip(a), OPENER) then SameBehind(AfterCloser(BehindOpener(a)), AfterCloser(BehindOpener(b)))
    else SameRest(a, b)
  }

  ghost predicate SameFile(mode: Mode, a: seq<string>, b: seq<string>)
    requires mode.InFence? ==> mode.run != ""
    decreases |a|
  {
    |a| == |b|
    && (a == [] || (SameProse(mode, a[0], b[0]) && SameFile(NextMode(mode, a[0]), a[1..], b[1..])))
  }

  // ----- what a line does, in terms of what may be seen of it

  lemma SameRestSameDropped(a: string, b: string)
    requires SameRest(a, b)
    ensures Dropped(a) == Dropped(b)
  {
    if x, c, d, y :| Twins(x, c, d, y, a, b) {
      CommentTextIsIrrelevant(x, c, d, y);
    } else if x, c, d :| OpenTwins(x, c, d, a, b) {
      DroppedOpening(x, c);
      DroppedOpening(x, d);
    }
  }

  lemma SameAfterComment(s: State, a: string, b: string)
    requires SameBehind(AfterCloser(a), AfterCloser(b))
    ensures AfterComment(s, a) == AfterComment(s, b)
  {
    if AfterCloser(a).Behind? {
      SameRestSameDropped(AfterCloser(a).text, AfterCloser(b).text);
    }
  }

  lemma SameProseSameStep(m: Markup, s: State, line: nat, a: string, b: string)
    requires Sound(s) && SameProse(ModeOf(s), a, b)
    ensures Step(m, s, line, a) == Step(m, s, line, b)
  {
    if a != b {
      match ModeOf(s)
      case InFence(_) =>
      case InComment => SameAfterComment(s, a, b);
      case Outside =>
        if OpensFence(Strip(a)).NoFence? {
          if StartsWith(Strip(a), OPENER) {
            SameAfterComment(Flush(s), BehindOpener(a), BehindOpener(b));
          } else {
            SameRestSameDropped(a, b);
          }
        }
    }
  }

  lemma {:induction false} SameFileSameState(m: Markup, s: State, from: nat, a: seq<string>, b: seq<string>)
    requires Sound(s) && SameFile(ModeOf(s), a, b)
    ensures Feed(m, s, from, a) == Feed(m, s, from, b)
    decreases |a|
  {
    if a != [] {
      SameProseSameStep(m, s, from, a[0], b[0]);
      StepMoves(m, s, from, a[0]);
      SameFileSameState(m, Step(m, s, from, a[0]), from + 1, a[1..], b[1..]);
    }
  }

  /** Files that differ only in verbatim text, line by line, have the same blocks, line numbers and all. */
  lemma VerbatimDoesNotInterfere(m: Markup, a: seq<string>, b: seq<string>)
    requires SameFile(Outside, a, b)
    ensures ProseBlocks(m, a) == ProseBlocks(m, b)
  {
    SameFileSameState(m, START, 1, a, b);
  }

  // ----- the theorem for one fenced block

  function ModeAfter(mode: Mode, lines: seq<string>): (r: Mode)
    requires mode.InFence? ==> mode.run != ""
    ensures r.InFence? ==> r.run != ""
    decreases |lines|
  {
    if lines == [] then mode else ModeAfter(NextMode(mode, lines[0]), lines[1..])
  }

  lemma SameHead(mode: Mode, h: string, a: seq<string>, b: seq<string>)
    requires mode.InFence? ==> mode.run != ""
    requires SameFile(NextMode(mode, h), a, b)
    ensures SameFile(mode, [h] + a, [h] + b)
  {
    assert ([h] + a)[1..] == a && ([h] + b)[1..] == b;
  }

  lemma {:induction false} SameFileConcat(mode: Mode, pre: seq<string>, a: seq<string>, b: seq<string>)
    requires mode.InFence? ==> mode.run != ""
    requires SameFile(ModeAfter(mode, pre), a, b)
    ensures SameFile(mode, pre + a, pre + b)
    decreases |pre|
  {
    if pre == [] {
      assert pre + a == a && pre + b == b;
    } else {
      SameFileConcat(NextMode(mode, pre[0]), pre[1..], a, b);
      SameAfterHead(mode, pre, a, b);
    }
  }

  lemma SameAfterHead(mode: Mode, pre: seq<string>, a: seq<string>, b: seq<string>)
    requires mode.InFence? ==> mode.run != ""
    requires pre != [] && SameFile(NextMode(mode, pre[0]), pre[1..] + a, pre[1..] + b)
    ensures SameFile(mode, pre + a, pre + b)
  {
    HeadTail(pre, a);
    HeadTail(pre, b);
    SameHead(mode, pre[0], pre[1..] + a, pre[1..] + b);
  }

  lemma HeadTail<T>(pre: seq<T>, a: seq<T>)
    requires pre != []
    ensures pre + a == [pre[0]] + (pre[1..] + a)
  {
  }

  /** Code in a fence of this run. */
  predicate IsCode(lines: seq<string>, run: string)
    requires run != ""
  {
    forall i :: 0 <= i < |lines| ==> !Closes(Strip(lines[i]), run)
  }

  lemma {:induction false} SameCode(run: string, a: seq<string>, b: seq<string>, post: seq<string>)
    requires run != "" && |a| == |b| && IsCode(a, run) && IsCode(b, run)
    ensures SameFile(InFence(run), a + post, b + post)
    decreases |a|
  {
    if a == [] {
      assert a + post == post && b + post == post;
      SameFileConcat(InFence(run), post, [], []);
      assert post + [] == post;
    } else {
      assert (a + post)[1..] == a[1..] + post && (b + post)[1..] == b[1..] + post;
      SameCode(run, a[1..], b[1..], post);
    }
  }

  /** Whatever stands between a fence's lines, the blocks are the same. */
  lemma FencedCodeIsIgnored(m: Markup, pre: seq<string>, fence: string, a: seq<string>, b: seq<string>,
                            post: seq<string>)
    requires ModeAfter(Outside, pre) == Outside && OpensFence(Strip(fence)).Fence?
    requires var run := OpensFence(Strip(fence)).run; |a| == |b| && IsCode(a, run) && IsCode(b, run)
    ensures ProseBlocks(m, pre + ([fence] + (a + post))) == ProseBlocks(m, pre + ([fence] + (b + post)))
  {
    var run := OpensFence(Strip(fence)).run;
    SameCode(run, a, b, post);
    SameHead(Outside, fence, a + post, b + post);
    SameFileConcat(Outside, pre, [fence] + (a + post), [fence] + (b + post));
    VerbatimDoesNotInterfere(m, pre + ([fence] + (a + post)), pre + ([fence] + (b + post)));
  }

  /** Whatever a comment over several lines says, the blocks are the same. */
  lemma CommentIsIgnored(m: Markup, pre: seq<string>, x: string, c: string, d: string, a: seq<string>, b: seq<string>,
                         post: seq<string>)
    requires ModeAfter(Outside, pre) == Outside && SameStart(Opening(x, c), Opening(x, d))
    requires OpenTwins(x, c, d, Opening(x, c), Opening(x, d)) && IsProse(Opening(x, c))
    requires |a| == |b| && IsComment(a) && IsComment(b)
    ensures ProseBlocks(m, pre + ([Opening(x, c)] + (a + post))) == ProseBlocks(m, pre + ([Opening(x, d)] + (b + post)))
  {
    DroppedOpening(x, c);
    SameComment(a, b, post);
    var p, q := [Opening(x, c)] + (a + post), [Opening(x, d)] + (b + post);
    assert p[1..] == a + post && q[1..] == b + post;
    SameFileConcat(Outside, pre, p, q);
    VerbatimDoesNotInterfere(m, pre + p, pre + q);
  }

  /** A line that neither opens a fence nor starts with a comment. */
  predicate IsProse(line: string) {
    OpensFence(Strip(line)).NoFence? && !StartsWith(Strip(line), OPENER)
  }

  predicate IsComment(lines: seq<string>) {
    forall i :: 0 <= i < |lines| ==> AfterCloser(lines[i]).Nothing?
  }

  lemma {:induction false} SameComment(a: seq<string>, b: seq<string>, post: seq<string>)
    requires |a| == |b| && IsComment(a) && IsComment(b)
    ensures SameFile(InComment, a + post, b + post)
    decreases |a|
  {
    if a == [] {
      assert a + post == post && b + post == post;
      SameFileConcat(InComment, post, [], []);
      assert post + [] == post;
    } else {
      assert (a + post)[1..] == a[1..] + post && (b + post)[1..] == b[1..] + post;
      SameComment(a[1..], b[1..], post);
    }
  }
}
