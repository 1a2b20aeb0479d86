/** The line numbers of the prose blocks. */
module ProseLines {
  import opened TextLines
  import opened InlineComments
  import opened ProseScanner

  /** Every character has its line, below `n`; lines never go back; a character comes from its line, or is the
      space at a wrap. */
  ghost predicate Placed(b: Block, n: nat, lines: seq<string>) {
    && |b.lineOf| == |b.text|
    && (forall k :: 0 <= k < |b.text| ==> Sourced(b.text[k], b.lineOf[k], n, lines))
    && (forall j, k :: 0 <= j < k < |b.text| ==> b.lineOf[j] <= b.lineOf[k])
  }

  predicate Sourced(c: char, line: nat, n: nat, lines: seq<string>) {
    1 <= line < n && line <= |lines| && (c == ' ' || c in lines[line - 1])
  }

  /** No line gives to both blocks, and the first block's lines come first. */
  ghost predicate Before(a: Block, b: Block) {
    forall j, k :: 0 <= j < |a.lineOf| && 0 <= k < |b.lineOf| ==> a.lineOf[j] < b.lineOf[k]
  }

  ghost predicate InLines(blocks: seq<Block>, n: nat, lines: seq<string>) {
    && (forall i :: 0 <= i < |blocks| ==> blocks[i].text != "" && Placed(blocks[i], n, lines))
    && (forall i, j :: 0 <= i < j < |blocks| ==> Before(blocks[i], blocks[j]))
  }

  /** The same for a scanner that is about to read line `n`. */
  ghost predicate Kept(s: State, n: nat, lines: seq<string>) {
    && Valid(s) && InLines(s.blocks, n, lines) && Placed(s.current, n, lines)
    && forall i :: 0 <= i < |s.blocks| ==> Before(s.blocks[i], s.current)
  }

  // ----- where the text of a line goes

  ghost predicate Within(part: string, whole: string) {
    forall c :: c in part ==> c in whole
  }

  lemma SuffixWithin(s: string, i: nat)
    requires i <= |s|
    ensures Within(s[i..], s)
  {
  }

  lemma {:induction false} StripLeftChars(s: string)
    ensures Within(StripLeft(s), s)
  {
    if s != "" && IsSpace(s[0]) {
      StripLeftChars(s[1..]);
    }
  }

  lemma {:induction false} StripRightChars(s: string)
    ensures Within(StripRight(s), s)
  {
    if s != "" && IsSpace(s[|s| - 1]) {
      StripRightChars(s[..|s| - 1]);
    }
  }

  lemma StripChars(s: string)
    ensures Within(Strip(s), s)
  {
    StripLeftChars(s);
    StripRightChars(StripLeft(s));
  }

  lemma {:induction false} GapsChars(s: string, spans: seq<Span>, from: nat)
    requires InOrder(spans, from, |s|)
    ensures Within(Gaps(s, spans, from), s)
    decreases spans
  {
    InOrderEnds(spans, from, |s|);
    if spans != [] {
      GapsChars(s, spans[1..], spans[0].end);
    }
  }

  lemma DroppedChars(raw: string)
    ensures Within(Dropped(raw).text, raw)
  {
    CommentsInOrder(Mask(raw), 0);
    GapsChars(raw, Comments(Mask(raw), 0), 0);
    GapsAligned(raw, Mask(raw), Comments(Mask(raw), 0), 0);
  }

  lemma AfterCommentGives(s: State, raw: string)
    ensures AfterComment(s, raw).Prose? ==> Within(AfterComment(s, raw).rest, raw)
    ensures SameBlocks(AfterComment(s, raw).state, s)
  {
    var end := Find(raw, CLOSER, 0);
    if end < |raw| {
      SuffixWithin(raw, end + |CLOSER|);
      DroppedChars(raw[end + |CLOSER|..]);
    }
  }

  /** Prose is taken from the line, and the blocks are those of a state the line has not reached. */
  lemma SkipGives(s: State, raw: string)
    requires Valid(s)
    ensures Skip(s, raw).Prose? ==> Within(Skip(s, raw).rest, raw)
    ensures var t := Skip(s, raw).state; SameBlocks(t, s) || SameBlocks(t, Flush(s))
  {
    if s.fence.NoFence? {
      if s.inComment {
        AfterCommentGives(s, raw);
      } else {
        DroppedChars(raw);
        AfterCommentGives(Flush(s), BehindOpener(raw));
        BehindWithin(raw);
      }
    }
  }

  lemma BehindWithin(raw: string)
    ensures Within(BehindOpener(raw), raw)
  {
    var i := Find(raw, OPENER, 0);
    if i < |raw| {
      SuffixWithin(raw, i + |OPENER|);
    }
  }

  predicate SameBlocks(t: State, s: State) {
    t.blocks == s.blocks && t.current == s.current
  }

  // ----- the invariant

  lemma AppendPlaces(b: Block, segment: string, n: nat, lines: seq<string>)
    requires Placed(b, n, lines) && 1 <= n <= |lines| && Within(segment, lines[n - 1])
    ensures Placed(Append(b, segment, n), n + 1, lines)
    ensures forall k :: 0 <= k < |Append(b, segment, n).lineOf| ==>
      (if k < |b.lineOf| then Append(b, segment, n).lineOf[k] == b.lineOf[k] else Append(b, segment, n).lineOf[k] == n)
  {
    StripChars(segment);
    var a := Append(b, segment, n);
    forall k | 0 <= k < |a.text|
      ensures Sourced(a.text[k], a.lineOf[k], n + 1, lines)
    {
      if k < |b.text| {
        assert Sourced(b.text[k], b.lineOf[k], n, lines);
      } else {
        assert a.text[k] == ' ' || a.text[k] in Strip(segment);
      }
    }
  }

  lemma AppendKeeps(s: State, segment: string, n: nat, lines: seq<string>)
    requires Kept(s, n, lines) && 1 <= n <= |lines| && Within(segment, lines[n - 1])
    ensures Kept(s.(current := Append(s.current, segment, n)), n + 1, lines)
  {
    AppendPlaces(s.current, segment, n, lines);
    forall i | 0 <= i < |s.blocks|
      ensures Before(s.blocks[i], Append(s.current, segment, n)) && Placed(s.blocks[i], n + 1, lines)
    {
      assert Before(s.blocks[i], s.current);
      assert Placed(s.blocks[i], n, lines);
    }
  }

  lemma FlushKeeps(s: State, n: nat, lines: seq<string>)
    requires Kept(s, n, lines)
    ensures Kept(Flush(s), n, lines)
  {
  }

  lemma LaterKeeps(s: State, n: nat, lines: seq<string>)
    requires Kept(s, n, lines)
    ensures Kept(s, n + 1, lines)
  {
  }

  lemma ReadKeeps(m: Markup, s: State, raw: string, n: nat, lines: seq<string>)
    requires Kept(s, n, lines) && 1 <= n <= |lines| && Within(raw, lines[n - 1])
    ensures Kept(Read(m, s, raw, n), n + 1, lines)
  {
    var stripped := Strip(raw);
    StripChars(raw);
    FlushKeeps(s, n, lines);
    LaterKeeps(s, n, lines);
    LaterKeeps(Flush(s), n, lines);
    if stripped != "" && !IsStructural(m, stripped) {
      if 0 < m.item(raw) <= |raw| {
        SuffixWithin(raw, m.item(raw));
        AppendKeeps(Flush(s), raw[m.item(raw)..], n, lines);
      } else {
        AppendKeeps(s, stripped, n, lines);
      }
    }
  }

  lemma StepKeeps(m: Markup, s: State, n: nat, lines: seq<string>)
    requires Kept(s, n, lines) && 1 <= n <= |lines|
    ensures Kept(Step(m, s, n, lines[n - 1]), n + 1, lines)
  {
    var raw := lines[n - 1];
    SkipGives(s, raw);
    FlushKeeps(s, n, lines);
    match Skip(s, raw)
    case Verbatim(t) => LaterKeeps(t, n, lines);
    case Prose(t, rest) => ReadKeeps(m, t, rest, n, lines);
  }

  lemma {:induction false} FeedKeeps(m: Markup, s: State, n: nat, lines: seq<string>)
    requires 1 <= n <= |lines| + 1 && Kept(s, n, lines)
    ensures Kept(Feed(m, s, n, lines[n - 1..]), |lines| + 1, lines)
    decreases |lines| - n
  {
    if n <= |lines| {
      StepKeeps(m, s, n, lines);
      assert lines[n - 1..][1..] == lines[n..];
      FeedKeeps(m, Step(m, s, n, lines[n - 1]), n + 1, lines);
    }
  }

  /** In every file's blocks each character has its line, and the blocks follow each other. */
  lemma BlocksKnowTheirLines(m: Markup, lines: seq<string>)
    ensures InLines(ProseBlocks(m, lines), |lines| + 1, lines)
  {
    FeedKeeps(m, START, 1, lines);
    assert lines[0..] == lines;
    FlushKeeps(Feed(m, START, 1, lines), |lines| + 1, lines);
  }

  // ----- plain lines are kept whole

  /** A line with no markup of its own. */
  predicate PlainLine(m: Markup, raw: string) {
    var stripped := Strip(raw);
    && stripped != "" && OpensFence(stripped).NoFence? && !StartsWith(stripped, OPENER)
    && Dropped(raw) == Dropping(raw, false) && !IsStructural(m, stripped) && !(0 < m.item(raw) <= |raw|)
  }

  function AppendAll(b: Block, from: nat, lines: seq<string>): Block
    decreases |lines|
  {
    if lines == [] then b else AppendAll(Append(b, Strip(lines[0]), from), from + 1, lines[1..])
  }

  lemma {:induction false} PlainFeed(m: Markup, s: State, from: nat, lines: seq<string>)
    requires Valid(s) && s.fence.NoFence? && !s.inComment && !s.inChecklist
    requires forall l :: l in lines ==> PlainLine(m, l)
    ensures Feed(m, s, from, lines) == s.(current := AppendAll(s.current, from, lines))
    decreases |lines|
  {
    if lines != [] {
      assert PlainLine(m, lines[0]);
      PlainFeed(m, s.(current := Append(s.current, Strip(lines[0]), from)), from + 1, lines[1..]);
    }
  }

  /** A file of plain lines is one block: the lines in order, stripped. */
  lemma PlainParagraph(m: Markup, lines: seq<string>)
    requires forall l :: l in lines ==> PlainLine(m, l)
    ensures ProseBlocks(m, lines)
         == if AppendAll(EMPTY, 1, lines).text == "" then [] else [AppendAll(EMPTY, 1, lines)]
  {
    PlainFeed(m, START, 1, lines);
  }
}
