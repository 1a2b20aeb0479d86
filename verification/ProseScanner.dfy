/** The scan of a Markdown file into prose blocks (`scripts/ja_register_check.py`). The patterns that look at
    one line and keep no state are taken as arbitrary functions of it. */
module ProseScanner {
  import opened TextLines
  import opened InlineComments

  datatype Markup = Markup(
    structural: string -> bool,   // tables, quotes, link definitions, lone HTML tags, the language switch
    item: string -> nat,          // where a list item's text begins; 0 for a line that starts none
    checkbox: string -> bool,
    progress: string -> bool)     // whether a heading's title is the progress section's

  // ----- a block

  /** A paragraph or list item, each character with the line it comes from. */
  datatype Block = Block(text: string, lineOf: seq<nat>)

  const EMPTY := Block("", [])

  predicate IsAscii(c: char) {
    c < '\U{80}'
  }

  function Repeat<T>(x: T, n: nat): (s: seq<T>)
    ensures |s| == n && forall i :: 0 <= i < n ==> s[i] == x
  {
    seq(n, _ => x)
  }

  function Append(b: Block, segment: string, line: nat): Block {
    var t := Strip(segment);
    if t == "" then b
    else
      var gap := if b.text != "" && IsAscii(b.text[|b.text| - 1]) && IsAscii(t[0]) then " " else "";
      Block(b.text + gap + t, b.lineOf + Repeat(line, |gap| + |t|))
  }

  class BlockBuffer {
    var text: string
    var lineOf: seq<nat>

    constructor ()
      ensures Value() == EMPTY
    {
      text, lineOf := "", [];
    }

    function Value(): Block
      reads this
    {
      Block(text, lineOf)
    }

    /** `_Block.append`. */
    method Add(segment: string, line: nat)
      modifies this
      ensures Value() == Append(old(Value()), segment, line)
    {
      var t := Strip(segment);
      if t == "" {
        return;
      }
      if text != "" && IsAscii(text[|text| - 1]) && IsAscii(t[0]) {
        text := text + " ";
        lineOf := lineOf + [line];
      }
      text := text + t;
      lineOf := lineOf + Repeat(line, |t|);
    }
  }

  // ----- fences and headings

  datatype Fence = NoFence | Fence(run: string)

  /** The leading run of `c`. */
  function Run(s: string, c: char): (n: nat)
    ensures n <= |s| && forall i :: 0 <= i < n ==> s[i] == c
    ensures n < |s| ==> s[n] != c
  {
    if s != "" && s[0] == c then 1 + Run(s[1..], c) else 0
  }

  /** The opening run of three backticks or tildes, or more. */
  function OpensFence(s: string): (f: Fence)
    ensures f.Fence? ==> f.run != ""
  {
    if Run(s, '`') >= 3 then Fence(s[..Run(s, '`')])
    else if Run(s, '~') >= 3 then Fence(s[..Run(s, '~')])
    else NoFence
  }

  function StripRun(s: string, c: char): string {
    if s != "" && s[|s| - 1] == c then StripRun(s[..|s| - 1], c) else s
  }

  predicate Closes(s: string, run: string)
    requires run != ""
  {
    StripRun(s, run[0]) == "" && |s| >= |run|
  }

  /** A fence closes on a bare run of its own character, at least as long (section 4.5 of CommonMark). */
  lemma {:induction false} ClosesIff(s: string, run: string)
    requires run != ""
    ensures Closes(s, run) <==> |s| >= |run| && forall i :: 0 <= i < |s| ==> s[i] == run[0]
  {
    StripRunIff(s, run[0]);
  }

  lemma {:induction false} StripRunIff(s: string, c: char)
    ensures StripRun(s, c) == "" <==> forall i :: 0 <= i < |s| ==> s[i] == c
  {
    if s != "" && s[|s| - 1] == c {
      StripRunIff(s[..|s| - 1], c);
      assert s == s[..|s| - 1] + [c];
    }
  }

  /** The level of a heading, 0 for a line that is none. */
  function HeadingLevel(s: string): nat {
    var n := Run(s, '#');
    if 1 <= n <= 6 && (n == |s| || IsSpace(s[n])) then n else 0
  }

  /** The title behind the hashes. */
  function Title(s: string): string
    requires HeadingLevel(s) > 0
  {
    Strip(s[HeadingLevel(s)..])
  }

  /** A fence opens with three backticks, or three tildes, and as many more as follow. */
  lemma FenceIff(s: string, c: char, n: nat)
    requires c == '`' || c == '~'
    ensures OpensFence(s) == Fence(Repeat(c, n))
       <==> 3 <= n <= |s| && s[..n] == Repeat(c, n) && (n < |s| ==> s[n] != c)
  {
    var run := Run(s, c);
    assert s[..run] == Repeat(c, run);
    if n <= |s| && s[..n] == Repeat(c, n) && (n < |s| ==> s[n] != c) {
      RunIs(s, c, n);
    }
    OneRun(s);
    assert n > 0 ==> Repeat(c, n)[0] == c;
    assert |Repeat(c, n)| == n;
  }

  /** A text does not begin with both. */
  lemma OneRun(s: string)
    ensures Run(s, '`') == 0 || Run(s, '~') == 0
    ensures Run(s, '`') > 0 ==> s[..Run(s, '`')][0] == '`'
    ensures Run(s, '~') > 0 ==> s[..Run(s, '~')][0] == '~'
  {
  }

  lemma {:induction false} RunIs(s: string, c: char, n: nat)
    requires n <= |s| && s[..n] == Repeat(c, n) && (n < |s| ==> s[n] != c)
    ensures Run(s, c) == n
  {
    if n > 0 {
      assert s[0] == s[..n][0];
      assert s[1..][..n - 1] == s[..n][1..] == Repeat(c, n - 1);
      RunIs(s[1..], c, n - 1);
    }
  }

  /** A heading is one to six hashes, then white space or nothing; its title is what follows. */
  lemma HeadingIs(n: nat, behind: string)
    requires 1 <= n <= 6 && (behind != "" ==> IsSpace(behind[0]))
    ensures HeadingLevel(Repeat('#', n) + behind) == n && Title(Repeat('#', n) + behind) == Strip(behind)
  {
    var s := Repeat('#', n) + behind;
    assert s[..n] == Repeat('#', n) && s[n..] == behind;
    assert !IsSpace('#');
    RunIs(s, '#', n);
  }

  /** There is no other heading. */
  lemma HeadingOnly(s: string) returns (behind: string)
    requires HeadingLevel(s) > 0
    ensures HeadingLevel(s) <= 6 && s == Repeat('#', HeadingLevel(s)) + behind && (behind != "" ==> IsSpace(behind[0]))
  {
    var n := HeadingLevel(s);
    behind := s[n..];
    assert s[..n] == Repeat('#', n);
  }

  // ----- the scanner's state and what a line does to it

  datatype State = State(blocks: seq<Block>, current: Block, fence: Fence, inComment: bool, inProgress: bool,
                         inChecklist: bool)

  const START := State([], EMPTY, NoFence, false, false, false)

  predicate Valid(s: State) {
    s.fence.Fence? ==> s.fence.run != ""
  }

  function Flush(s: State): (t: State)
    ensures t.fence == s.fence && t.inComment == s.inComment && t.current == EMPTY
  {
    s.(blocks := if s.current.text != "" then s.blocks + [s.current] else s.blocks, current := EMPTY)
  }

  datatype Skipped = Verbatim(state: State) | Prose(state: State, rest: string)

  function AfterComment(s: State, raw: string): (r: Skipped)
    ensures r.state.fence == s.fence
  {
    var end := Find(raw, CLOSER, 0);
    if end == |raw| then Verbatim(s.(inComment := true))
    else
      var d := Dropped(raw[end + |CLOSER|..]);
      var t := s.(inComment := d.open);
      if Strip(d.text) != "" then Prose(t, d.text) else Verbatim(t)
  }

  /** The text behind a line's first comment opener. */
  function BehindOpener(raw: string): string {
    var i := Find(raw, OPENER, 0);
    if i == |raw| then "" else raw[i + |OPENER|..]
  }

  function Skip(s: State, raw: string): (r: Skipped)
    requires Valid(s)
    ensures Valid(r.state)
  {
    var stripped := Strip(raw);
    if s.fence.Fence? then Verbatim(if Closes(stripped, s.fence.run) then s.(fence := NoFence) else s)
    else if s.inComment then AfterComment(s, raw)
    else if OpensFence(stripped).Fence? then Verbatim(Flush(s).(fence := OpensFence(stripped)))
    else if StartsWith(stripped, OPENER) then AfterComment(Flush(s), BehindOpener(raw))
    else
      var d := Dropped(raw);
      Prose(if d.open then s.(inComment := true) else s, d.text)
  }

  /** A line that is no part of a block; a heading of the first two levels starts or ends the progress section. */
  predicate IsStructural(m: Markup, stripped: string) {
    HeadingLevel(stripped) > 0 || m.structural(stripped)
  }

  function AfterHeading(m: Markup, s: State, stripped: string): (t: State)
    ensures t.fence == s.fence && t.inComment == s.inComment && t.current == s.current && t.blocks == s.blocks
  {
    if 0 < HeadingLevel(stripped) <= 2 then s.(inProgress := m.progress(Title(stripped))) else s
  }

  function Read(m: Markup, s: State, raw: string, line: nat): (t: State)
    ensures t.fence == s.fence && t.inComment == s.inComment
  {
    var stripped := Strip(raw);
    if stripped == "" || IsStructural(m, stripped) then
      Flush(if stripped == "" then s else AfterHeading(m, s, stripped)).(inChecklist := false)
    else if 0 < m.item(raw) <= |raw| then
      var f, body := Flush(s), raw[m.item(raw)..];
      var checklist := f.inProgress && m.checkbox(body);
      f.(inChecklist := checklist, current := if checklist then f.current else Append(f.current, body, line))
    else if s.inChecklist then s
    else s.(current := Append(s.current, stripped, line))
  }

  function Step(m: Markup, s: State, line: nat, raw: string): (t: State)
    requires Valid(s)
    ensures Valid(t)
  {
    match Skip(s, raw)
    case Verbatim(t) => t
    case Prose(t, rest) => Read(m, t, rest, line)
  }

  /** The state after the lines, the first of them numbered `from`. */
  function Feed(m: Markup, s: State, from: nat, lines: seq<string>): (t: State)
    requires Valid(s)
    ensures Valid(t)
    decreases |lines|
  {
    if lines == [] then s else Feed(m, Step(m, s, from, lines[0]), from + 1, lines[1..])
  }

  function ProseBlocks(m: Markup, lines: seq<string>): seq<Block> {
    Flush(Feed(m, START, 1, lines)).blocks
  }

  // ----- the scanner itself

  class Scanner {
    const markup: Markup
    var blocks: seq<Block>
    var current: BlockBuffer
    var fence: Fence
    var inComment: bool
    var inProgress: bool
    var inChecklist: bool

    constructor (m: Markup)
      ensures markup == m && Now() == START && fresh(current)
    {
      markup := m;
      blocks, fence, inComment, inProgress, inChecklist := [], NoFence, false, false, false;
      current := new BlockBuffer();
    }

    function Now(): State
      reads this, current
    {
      State(blocks, current.Value(), fence, inComment, inProgress, inChecklist)
    }

    /** `_flush`: the block in hand goes to the list, and a new one is begun. */
    method EndBlock()
      modifies this
      ensures Now() == Flush(old(Now())) && fresh(current)
    {
      if current.text != "" {
        blocks := blocks + [current.Value()];
      }
      current := new BlockBuffer();
    }

    /** `_after_comment`. */
    method SkipComment(raw: string) returns (prose: bool, rest: string)
      modifies this`inComment
      ensures (if prose then Prose(Now(), rest) else Verbatim(Now())) == AfterComment(old(Now()), raw)
    {
      prose, rest := false, "";
      var end := Find(raw, CLOSER, 0);
      if end == |raw| {
        inComment := true;
        return;
      }
      rest, inComment := DropComments(raw[end + |CLOSER|..]);
      prose := Strip(rest) != "";
    }

    /** `_skip_verbatim`. */
    method SkipVerbatim(raw: string) returns (prose: bool, rest: string)
      requires Valid(Now())
      modifies this
      ensures (if prose then Prose(Now(), rest) else Verbatim(Now())) == Skip(old(Now()), raw)
      ensures current == old(current) || fresh(current)
    {
      prose, rest := false, "";
      var stripped := Strip(raw);
      if fence.Fence? {
        if Closes(stripped, fence.run) {
          fence := NoFence;
        }
      } else if inComment {
        prose, rest := SkipComment(raw);
      } else if OpensFence(stripped).Fence? {
        EndBlock();
        fence := OpensFence(stripped);
      } else if StartsWith(stripped, OPENER) {
        EndBlock();
        prose, rest := SkipComment(BehindOpener(raw));
      } else {
        var open;
        rest, open := DropComments(raw);
        prose := true;
        if open {
          inComment := true;
        }
      }
    }

    /** `feed`. */
    method Take(line: nat, raw: string)
      requires Valid(Now())
      modifies this, current
      ensures Now() == Step(markup, old(Now()), line, raw)
      ensures current == old(current) || fresh(current)
    {
      var prose, rest := SkipVerbatim(raw);
      if prose {
        TakeProse(line, rest);
      }
    }

    method TakeProse(line: nat, raw: string)
      modifies this, current
      ensures Now() == Read(markup, old(Now()), raw, line)
      ensures current == old(current) || fresh(current)
    {
      var stripped := Strip(raw);
      if stripped == "" || IsStructural(markup, stripped) {
        if stripped != "" && 0 < HeadingLevel(stripped) <= 2 {
          inProgress := markup.progress(Title(stripped));
        }
        EndBlock();
        inChecklist := false;
      } else if 0 < markup.item(raw) <= |raw| {
        EndBlock();
        var body := raw[markup.item(raw)..];
        inChecklist := inProgress && markup.checkbox(body);
        if !inChecklist {
          current.Add(body, line);
        }
      } else if !inChecklist {
        current.Add(stripped, line);
      }
    }
  }

  /** `prose_blocks`. */
  method ScanLines(m: Markup, lines: seq<string>) returns (blocks: seq<Block>)
    ensures blocks == ProseBlocks(m, lines)
  {
    var scanner := new Scanner(m);
    for i := 0 to |lines|
      invariant scanner.markup == m && fresh(scanner) && fresh(scanner.current)
      invariant Valid(scanner.Now())
      invariant Feed(m, scanner.Now(), i + 1, lines[i..]) == Feed(m, START, 1, lines)
    {
      assert lines[i..][1..] == lines[i + 1..];
      scanner.Take(i + 1, lines[i]);
    }
    scanner.EndBlock();
    blocks := scanner.blocks;
  }
}
