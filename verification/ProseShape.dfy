/** Where the blocks of a whole file begin and end, and what of each line stands in them, told line by line with no
    scanner's state (`scripts/ja_register_check.py`). */
module ProseShape {
  import opened TextLines
  import opened InlineComments
  import opened ProseScanner
  import opened ProseFacts

  // ----- what a line is

  datatype Rest = NoText | Text(text: string)

  /** What stands behind a comment, if it is not blank. */
  function RestBehind(b: Behind): Rest {
    match b
    case Nothing => NoText
    case Behind(text) => if Strip(Dropped(text).text) == "" then NoText else Text(Dropped(text).text)
  }

  predicate OpensVerbatim(mode: Mode, raw: string) {
    mode == Outside && (OpensFence(Strip(raw)).Fence? || StartsWith(Strip(raw), OPENER))
  }

  /** What of a line is prose. */
  function RestOf(mode: Mode, raw: string): Rest {
    match mode
    case InFence(_) => NoText
    case InComment => RestBehind(AfterCloser(raw))
    case Outside =>
      if OpensFence(Strip(raw)).Fence? then NoText
      else if StartsWith(Strip(raw), OPENER) then RestBehind(AfterCloser(BehindOpener(raw)))
      else Text(Dropped(raw).text)
  }

  /** No prose; blank or structural; the beginning of a list item; any other prose. */
  datatype Role = Silent | Ends(stripped: string) | Item(body: string) | Words(text: string)

  function RoleOf(m: Markup, mode: Mode, raw: string): Role {
    match RestOf(mode, raw)
    case NoText => Silent
    case Text(t) =>
      if Strip(t) == "" || IsStructural(m, Strip(t)) then Ends(Strip(t))
      else if 0 < m.item(t) <= |t| then Item(t[m.item(t)..]) else Words(t)
  }

  /** A line as it stands in its file. */
  datatype Fact = Fact(role: Role, opens: bool) {

    /** Nothing before the line shares a block with it or with anything behind it: it is blank, a heading or the like,
        begins a list item, opens a fence, or starts with a comment. */
    predicate Parts() {
      role.Ends? || role.Item? || opens
    }

    /** A heading of the first or second level. */
    predicate IsTop() {
      role.Ends? && 1 <= HeadingLevel(role.stripped) <= 2
    }

    predicate IsProgress(m: Markup) {
      IsTop() && m.progress(Title(role.stripped))
    }

    /** Whether a list item goes on at this line. */
    predicate GoesOn() {
      role.Silent? || role.Words?
    }
  }

  /** The lines of a file, or of the rest of it. */
  function Facts(m: Markup, mode: Mode, lines: seq<string>): (facts: seq<Fact>)
    requires mode.InFence? ==> mode.run != ""
    ensures |facts| == |lines|
    decreases |lines|
  {
    if lines == [] then []
    else
      [Fact(RoleOf(m, mode, lines[0]), OpensVerbatim(mode, lines[0]))] + Facts(m, NextMode(mode, lines[0]), lines[1..])
  }

  // ----- progress sections and their checklists

  /** The last such heading before line `n` is a progress section's. */
  ghost predicate InProgress(m: Markup, facts: seq<Fact>, n: nat)
    requires n <= |facts|
  {
    exists k :: 0 <= k < n && facts[k].IsProgress(m) && forall j :: k < j < n ==> !facts[j].IsTop()
  }

  ghost predicate IsCheckbox(m: Markup, facts: seq<Fact>, k: nat)
    requires k < |facts|
  {
    facts[k].role.Item? && m.checkbox(facts[k].role.body) && InProgress(m, facts, k)
  }

  /** Line `n` goes on with a checklist item. */
  ghost predicate InChecklist(m: Markup, facts: seq<Fact>, n: nat)
    requires n <= |facts|
  {
    exists k :: 0 <= k < n && IsCheckbox(m, facts, k) && forall j :: k < j < n ==> facts[j].GoesOn()
  }

  /** What a line gives to a block. */
  ghost function Given(m: Markup, facts: seq<Fact>, i: nat): string
    requires i < |facts|
  {
    match facts[i].role
    case Item(body) => if IsCheckbox(m, facts, i) then "" else Strip(body)
    case Words(text) => if InChecklist(m, facts, i) then "" else Strip(text)
    case _ => ""
  }

  // ----- a line, as the scanner takes it

  /** The state without what is verbatim in it. */
  function Seen(s: State): State {
    s.(fence := NoFence, inComment := false)
  }

  /** What a line of this role does. */
  function Effect(m: Markup, s: State, role: Role, opens: bool, line: nat): State {
    var t := if opens then Flush(s) else s;
    match role
    case Silent => t
    case Ends(stripped) =>
      Flush(t).(inChecklist := false,
                inProgress := if 1 <= HeadingLevel(stripped) <= 2 then m.progress(Title(stripped)) else t.inProgress)
    case Item(body) =>
      var checklist := t.inProgress && m.checkbox(body);
      Flush(t).(inChecklist := checklist, current := if checklist then EMPTY else Append(EMPTY, body, line))
    case Words(text) => if t.inChecklist then t else t.(current := Append(t.current, Strip(text), line))
  }

  lemma CommentRest(s: State, raw: string)
    ensures Seen(AfterComment(s, raw).state) == Seen(s)
    ensures match RestBehind(AfterCloser(raw))
            case NoText => AfterComment(s, raw).Verbatim?
            case Text(t) => AfterComment(s, raw).Prose? && AfterComment(s, raw).rest == t
  {
  }

  lemma SkipIs(s: State, raw: string)
    requires Sound(s)
    ensures var t := Skip(s, raw).state;
      Seen(t) == Seen(if OpensVerbatim(ModeOf(s), raw) then Flush(s) else s)
    ensures match RestOf(ModeOf(s), raw)
            case NoText => Skip(s, raw).Verbatim?
            case Text(t) => Skip(s, raw).Prose? && Skip(s, raw).rest == t
  {
    CommentRest(s, raw);
    CommentRest(Flush(s), BehindOpener(raw));
  }

  lemma ReadIs(m: Markup, s: State, raw: string, line: nat)
    ensures var role := if Strip(raw) == "" || IsStructural(m, Strip(raw)) then Ends(Strip(raw))
                        else if 0 < m.item(raw) <= |raw| then Item(raw[m.item(raw)..]) else Words(raw);
      Seen(Read(m, s, raw, line)) == Effect(m, Seen(s), role, false, line)
  {
    assert HeadingLevel("") == 0;
  }

  lemma StepIs(m: Markup, s: State, line: nat, raw: string)
    requires Sound(s)
    ensures Seen(Step(m, s, line, raw))
         == Effect(m, Seen(s), RoleOf(m, ModeOf(s), raw), OpensVerbatim(ModeOf(s), raw), line)
  {
    SkipIs(s, raw);
    match Skip(s, raw)
    case Verbatim(t) =>
    case Prose(t, rest) => ReadIs(m, t, rest, line);
  }

  /** A line's effect, by what is known of it. */
  function After(m: Markup, s: State, f: Fact, line: nat): State {
    Effect(m, s, f.role, f.opens, line)
  }

  function Run(m: Markup, s: State, from: nat, facts: seq<Fact>): State
    decreases |facts|
  {
    if facts == [] then s else Run(m, After(m, s, facts[0], from), from + 1, facts[1..])
  }

  lemma {:induction false} FeedRuns(m: Markup, s: State, from: nat, lines: seq<string>)
    requires Sound(s)
    ensures Seen(Feed(m, s, from, lines)) == Run(m, Seen(s), from, Facts(m, ModeOf(s), lines))
    decreases |lines|
  {
    if lines != [] {
      var t := Step(m, s, from, lines[0]);
      StepMoves(m, s, from, lines[0]);
      StepIs(m, s, from, lines[0]);
      FeedRuns(m, t, from + 1, lines[1..]);
      FirstFact(m, s, from, lines, Facts(m, ModeOf(s), lines), Facts(m, ModeOf(t), lines[1..]), Seen(t));
    }
  }

  lemma FirstFact(m: Markup, s: State, from: nat, lines: seq<string>, facts: seq<Fact>, rest: seq<Fact>, u: State)
    requires lines != [] && facts == [Fact(RoleOf(m, ModeOf(s), lines[0]), OpensVerbatim(ModeOf(s), lines[0]))] + rest
    requires u == Effect(m, Seen(s), RoleOf(m, ModeOf(s), lines[0]), OpensVerbatim(ModeOf(s), lines[0]), from)
    ensures Run(m, Seen(s), from, facts) == Run(m, u, from + 1, rest)
  {
    assert facts[1..] == rest;
  }

  /** The scan of the first `n` lines. */
  function Scan(m: Markup, facts: seq<Fact>, n: nat): State
    requires n <= |facts|
  {
    if n == 0 then START else After(m, Scan(m, facts, n - 1), facts[n - 1], n)
  }

  lemma {:induction false} RunIsScan(m: Markup, facts: seq<Fact>, n: nat, from: nat)
    requires n <= |facts| && from == n + 1
    ensures Run(m, Scan(m, facts, n), from, facts[n..]) == Scan(m, facts, |facts|)
    decreases |facts| - n
  {
    if n < |facts| {
      RunIsScan(m, facts, n + 1, from + 1);
      assert facts[n..][1..] == facts[n + 1..];
    }
  }

  lemma BlocksAreScanned(m: Markup, lines: seq<string>)
    ensures ProseBlocks(m, lines) == Flush(Scan(m, Facts(m, Outside, lines), |lines|)).blocks
  {
    FeedRuns(m, START, 1, lines);
    RunIsScan(m, Facts(m, Outside, lines), 0, 1);
    assert Facts(m, Outside, lines)[0..] == Facts(m, Outside, lines);
  }

  // ----- progress and checklists, as the scanner tracks them

  lemma {:induction false} SectionsAre(m: Markup, facts: seq<Fact>, n: nat)
    requires n <= |facts|
    ensures Scan(m, facts, n).inProgress <==> InProgress(m, facts, n)
    ensures Scan(m, facts, n).inChecklist <==> InChecklist(m, facts, n)
  {
    if n > 0 {
      SectionsAre(m, facts, n - 1);
      ProgressNext(m, facts, n - 1);
      ChecklistNext(m, facts, n - 1);
      AfterTracks(m, Scan(m, facts, n - 1), facts[n - 1], n);
    }
  }

  lemma AfterTracks(m: Markup, s: State, f: Fact, line: nat)
    ensures After(m, s, f, line).inProgress == if f.IsTop() then f.IsProgress(m) else s.inProgress
    ensures After(m, s, f, line).inChecklist
         == match f.role
            case Ends(_) => false
            case Item(body) => s.inProgress && m.checkbox(body)
            case _ => s.inChecklist
  {
  }

  lemma ProgressNext(m: Markup, facts: seq<Fact>, n: nat)
    requires n < |facts|
    ensures InProgress(m, facts, n + 1) <==> if facts[n].IsTop() then facts[n].IsProgress(m) else InProgress(m, facts, n)
  {
    if InProgress(m, facts, n) && !facts[n].IsTop() {
      var k :| 0 <= k < n && facts[k].IsProgress(m) && forall j :: k < j < n ==> !facts[j].IsTop();
      assert forall j :: k < j < n + 1 ==> !facts[j].IsTop();
    }
  }

  lemma ChecklistNext(m: Markup, facts: seq<Fact>, n: nat)
    requires n < |facts|
    ensures InChecklist(m, facts, n + 1)
       <==> match facts[n].role
            case Ends(_) => false
            case Item(_) => IsCheckbox(m, facts, n)
            case _ => InChecklist(m, facts, n)
  {
    if InChecklist(m, facts, n) && facts[n].GoesOn() {
      var k :| 0 <= k < n && IsCheckbox(m, facts, k) && forall j :: k < j < n ==> facts[j].GoesOn();
      assert forall j :: k < j < n + 1 ==> facts[j].GoesOn();
    }
  }

  /** What a line does to the blocks: it may end the one in hand, and adds what it gives. */
  lemma ScanNext(m: Markup, facts: seq<Fact>, n: nat)
    requires n < |facts|
    ensures var s, t := Scan(m, facts, n), Scan(m, facts, n + 1);
      var u := if facts[n].Parts() then Flush(s) else s;
      t.blocks == u.blocks && t.current == Append(u.current, Given(m, facts, n), n + 1)
  {
    SectionsAre(m, facts, n);
    AfterGives(m, Scan(m, facts, n), facts[n], n + 1, Given(m, facts, n));
  }

  lemma AfterGives(m: Markup, s: State, f: Fact, line: nat, given: string)
    requires given == match f.role
                      case Item(body) => if s.inProgress && m.checkbox(body) then "" else Strip(body)
                      case Words(text) => if s.inChecklist then "" else Strip(text)
                      case _ => ""
    ensures var u, t := if f.Parts() then Flush(s) else s, After(m, s, f, line);
      t.blocks == u.blocks && t.current == Append(u.current, given, line)
  {
    match f.role
    case Item(body) => AppendStripped(body);
    case Words(text) => AppendStripped(Strip(text));
    case _ => AppendStripped("");
  }

  lemma AppendStripped(t: string)
    ensures forall b: Block, line: nat :: Append(b, Strip(t), line) == Append(b, t, line)
    ensures forall b: Block, line: nat :: Append(b, "", line) == b
  {
    assert Strip("") == "";
    StripTwice(t);
  }

  lemma StripTwice(s: string)
    ensures Strip(Strip(s)) == Strip(s)
  {
    StrippedStays(StripLeft(s));
    LeftIsStripped(s);
    if Strip(s) != "" {
      RightKeepsFirst(StripLeft(s));
    }
  }

  lemma {:induction false} LeftIsStripped(s: string)
    ensures StripLeft(s) != "" ==> !IsSpace(StripLeft(s)[0])
  {
    if s != "" && IsSpace(s[0]) {
      LeftIsStripped(s[1..]);
    }
  }

  lemma {:induction false} RightKeepsFirst(s: string)
    requires StripRight(s) != ""
    ensures StripRight(s)[0] == s[0]
  {
    if s != "" && IsSpace(s[|s| - 1]) {
      RightKeepsFirst(s[..|s| - 1]);
    }
  }

  lemma {:induction false} StrippedStays(s: string)
    ensures StripRight(StripRight(s)) == StripRight(s)
  {
    if s != "" && IsSpace(s[|s| - 1]) {
      StrippedStays(s[..|s| - 1]);
    }
  }

  // ----- which lines a block holds

  ghost predicate OnLine(b: Block, i: int) {
    exists k :: 0 <= k < |b.lineOf| && b.lineOf[k] == i + 1
  }

  ghost predicate InSome(blocks: seq<Block>, i: int) {
    exists x :: 0 <= x < |blocks| && OnLine(blocks[x], i)
  }

  /** How many of the first `n` lines part the blocks. */
  function Partings(facts: seq<Fact>, n: nat): nat
    requires n <= |facts|
  {
    if n == 0 then 0 else Partings(facts, n - 1) + if facts[n - 1].Parts() then 1 else 0
  }

  lemma {:induction false} PartingsIff(facts: seq<Fact>, i: nat, j: nat)
    requires i <= j <= |facts|
    ensures Partings(facts, i) <= Partings(facts, j)
    ensures Partings(facts, i) == Partings(facts, j) <==> forall k :: i <= k < j ==> !facts[k].Parts()
    decreases j - i
  {
    if i < j {
      PartingsIff(facts, i, j - 1);
    }
  }

  /** Up to line `n` the block holds exactly the lines behind the `key`-th parting that give something. */
  ghost predicate Holds(m: Markup, facts: seq<Fact>, b: Block, key: nat, n: nat)
    requires n <= |facts|
  {
    forall i :: OnLine(b, i) <==> Stands(m, facts, i, key, n)
  }

  ghost predicate Stands(m: Markup, facts: seq<Fact>, i: int, key: nat, n: nat)
    requires n <= |facts|
  {
    0 <= i < n && Given(m, facts, i) != "" && Partings(facts, i + 1) == key
  }

  ghost predicate BlockHolds(m: Markup, facts: seq<Fact>, b: Block, n: nat)
    requires n <= |facts|
  {
    exists key: nat :: key < Partings(facts, n) && Holds(m, facts, b, key, n)
  }

  /** Each line that gives something has its block, or is in the one in hand. */
  ghost predicate Arranged(m: Markup, facts: seq<Fact>, s: State, n: nat)
    requires n <= |facts|
  {
    && |s.current.lineOf| == |s.current.text| && Holds(m, facts, s.current, Partings(facts, n), n)
    && (forall x :: 0 <= x < |s.blocks| ==> BlockHolds(m, facts, s.blocks[x], n))
    && forall i: nat :: i < n && Given(m, facts, i) != "" ==>
      OnLine(s.current, i) || InSome(s.blocks, i)
  }

  lemma AppendLines(b: Block, t: string, line: nat)
    requires Strip(t) == t && line > 0
    ensures forall i :: OnLine(Append(b, t, line), i) <==> OnLine(b, i) || (t != "" && i == line - 1)
  {
    var a := Append(b, t, line);
    if t != "" {
      assert a.lineOf[|a.lineOf| - 1] == line;
      forall i
        ensures OnLine(a, i) <==> OnLine(b, i) || i == line - 1
      {
        if OnLine(b, i) {
          var k :| 0 <= k < |b.lineOf| && b.lineOf[k] == i + 1;
          assert a.lineOf[k] == i + 1;
        }
      }
    }
  }

  lemma BlockStaysSo(m: Markup, facts: seq<Fact>, b: Block, n: nat)
    requires n < |facts| && BlockHolds(m, facts, b, n)
    ensures BlockHolds(m, facts, b, n + 1)
  {
    var key: nat :| key < Partings(facts, n) && Holds(m, facts, b, key, n);
    PartingsIff(facts, n, n + 1);
    forall i
      ensures Stands(m, facts, i, key, n + 1) <==> Stands(m, facts, i, key, n)
    {
    }
    assert Holds(m, facts, b, key, n + 1);
  }

  lemma GivenIsStripped(m: Markup, facts: seq<Fact>, i: nat)
    requires i < |facts|
    ensures Strip(Given(m, facts, i)) == Given(m, facts, i)
  {
    assert Strip("") == "";
    match facts[i].role
    case Item(body) => StripTwice(body);
    case Words(text) => StripTwice(text);
    case _ =>
  }

  lemma EmptyHolds(m: Markup, facts: seq<Fact>, n: nat, key: nat)
    requires n < |facts| && facts[n].Parts() && key == Partings(facts, n + 1)
    ensures forall i :: !Stands(m, facts, i, key, n)
  {
    forall i
      ensures !Stands(m, facts, i, key, n)
    {
      if 0 <= i < n {
        PartingsIff(facts, i + 1, n);
      }
    }
  }

  lemma CurrentNext(m: Markup, facts: seq<Fact>, b: Block, n: nat)
    requires n < |facts| && Holds(m, facts, b, Partings(facts, n + 1), n)
    ensures Holds(m, facts, Append(b, Given(m, facts, n), n + 1), Partings(facts, n + 1), n + 1)
  {
    GivenIsStripped(m, facts, n);
    AppendLines(b, Given(m, facts, n), n + 1);
  }

  lemma ArrangedNext(m: Markup, facts: seq<Fact>, n: nat)
    requires n < |facts| && Arranged(m, facts, Scan(m, facts, n), n)
    ensures Arranged(m, facts, Scan(m, facts, n + 1), n + 1)
  {
    var s, t := Scan(m, facts, n), Scan(m, facts, n + 1);
    var u := if facts[n].Parts() then Flush(s) else s;
    ScanNext(m, facts, n);
    if facts[n].Parts() {
      EmptyHolds(m, facts, n, Partings(facts, n + 1));
    }
    CurrentNext(m, facts, u.current, n);
    BlocksNext(m, facts, s, u, n);
    GivenIsStripped(m, facts, n);
    AppendLines(u.current, Given(m, facts, n), n + 1);
  }

  lemma BlocksNext(m: Markup, facts: seq<Fact>, s: State, u: State, n: nat)
    requires n < |facts| && Arranged(m, facts, s, n) && u == if facts[n].Parts() then Flush(s) else s
    ensures forall x :: 0 <= x < |u.blocks| ==> BlockHolds(m, facts, u.blocks[x], n + 1)
    ensures forall i: nat :: i < n && Given(m, facts, i) != "" ==>
      OnLine(u.current, i) || InSome(u.blocks, i)
  {
    forall x | 0 <= x < |u.blocks|
      ensures BlockHolds(m, facts, u.blocks[x], n + 1)
    {
      if x < |s.blocks| {
        BlockStaysSo(m, facts, s.blocks[x], n);
      } else {
        FlushedHolds(m, facts, s.current, n);
      }
    }
    KeptOnLine(s, u);
  }

  lemma FlushedHolds(m: Markup, facts: seq<Fact>, b: Block, n: nat)
    requires n < |facts| && facts[n].Parts() && Holds(m, facts, b, Partings(facts, n), n)
    ensures BlockHolds(m, facts, b, n + 1)
  {
    var key := Partings(facts, n);
    forall i
      ensures Stands(m, facts, i, key, n + 1) <==> Stands(m, facts, i, key, n)
    {
    }
    assert Holds(m, facts, b, key, n + 1);
  }

  /** Ending a block moves its lines with it. */
  lemma KeptOnLine(s: State, u: State)
    requires u == s || u == Flush(s)
    requires s.current.text == "" ==> s.current.lineOf == []
    ensures forall i :: OnLine(s.current, i) || InSome(s.blocks, i) ==>
      OnLine(u.current, i) || InSome(u.blocks, i)
  {
    forall i | OnLine(s.current, i) || InSome(s.blocks, i)
      ensures OnLine(u.current, i) || InSome(u.blocks, i)
    {
      if u == Flush(s) {
        if OnLine(s.current, i) {
          assert u.blocks[|u.blocks| - 1] == s.current;
        } else {
          var x :| 0 <= x < |s.blocks| && OnLine(s.blocks[x], i);
          assert u.blocks[x] == s.blocks[x];
        }
      }
    }
  }

  lemma {:induction false} ScanArranged(m: Markup, facts: seq<Fact>, n: nat)
    requires n <= |facts|
    ensures Arranged(m, facts, Scan(m, facts, n), n)
  {
    if n > 0 {
      ScanArranged(m, facts, n - 1);
      ArrangedNext(m, facts, n - 1);
    }
  }

  ghost predicate HoldsSome(m: Markup, facts: seq<Fact>, b: Block) {
    exists key :: Holds(m, facts, b, key, |facts|)
  }

  lemma FlushArranged(m: Markup, facts: seq<Fact>, s: State)
    requires Arranged(m, facts, s, |facts|)
    ensures forall b :: b in Flush(s).blocks ==> HoldsSome(m, facts, b)
    ensures forall i: nat :: i < |facts| && Given(m, facts, i) != "" ==> InSome(Flush(s).blocks, i)
  {
    KeptOnLine(s, Flush(s));
    forall b | b in Flush(s).blocks
      ensures HoldsSome(m, facts, b)
    {
      if b in s.blocks {
        var x :| 0 <= x < |s.blocks| && s.blocks[x] == b;
        assert BlockHolds(m, facts, s.blocks[x], |facts|);
      }
    }
  }

  lemma BlocksHold(m: Markup, lines: seq<string>)
    ensures var facts := Facts(m, Outside, lines);
      && (forall b :: b in ProseBlocks(m, lines) ==> HoldsSome(m, facts, b))
      && (forall i: nat :: i < |facts| && Given(m, facts, i) != "" ==> InSome(ProseBlocks(m, lines), i))
  {
    var facts := Facts(m, Outside, lines);
    BlocksAreScanned(m, lines);
    ScanArranged(m, facts, |facts|);
    FlushArranged(m, facts, Scan(m, facts, |facts|));
  }

  /** A line has characters in some block exactly when it gives something. */
  lemma InSomeIff(m: Markup, lines: seq<string>, i: int)
    ensures InSome(ProseBlocks(m, lines), i)
       <==> 0 <= i < |lines| && Given(m, Facts(m, Outside, lines), i) != ""
  {
    var facts, blocks := Facts(m, Outside, lines), ProseBlocks(m, lines);
    BlocksHold(m, lines);
    if InSome(blocks, i) {
      var x :| 0 <= x < |blocks| && OnLine(blocks[x], i);
      assert blocks[x] in blocks;
      assert HoldsSome(m, facts, blocks[x]);
      var key :| Holds(m, facts, blocks[x], key, |facts|);
      assert Stands(m, facts, i, key, |facts|);
    }
  }

  ghost predicate Share(blocks: seq<Block>, i: int, j: int) {
    exists b :: b in blocks && OnLine(b, i) && OnLine(b, j)
  }

  /** Two lines that give something share a block exactly when no line behind the first, up to the second, parts them. */
  lemma ShareIff(m: Markup, lines: seq<string>, i: nat, j: nat)
    requires i < j < |lines|
    requires var facts := Facts(m, Outside, lines); Given(m, facts, i) != "" && Given(m, facts, j) != ""
    ensures Share(ProseBlocks(m, lines), i, j) <==> NonePart(Facts(m, Outside, lines), i, j)
  {
    BlocksHold(m, lines);
    ShareByKey(m, Facts(m, Outside, lines), ProseBlocks(m, lines), i, j);
    NonePartIff(Facts(m, Outside, lines), i, j);
  }

  predicate NonePart(facts: seq<Fact>, i: nat, j: nat)
    requires i < j < |facts|
  {
    forall k :: i < k <= j ==> !facts[k].Parts()
  }

  lemma NonePartIff(facts: seq<Fact>, i: nat, j: nat)
    requires i < j < |facts|
    ensures NonePart(facts, i, j) <==> Partings(facts, i + 1) == Partings(facts, j + 1)
  {
    PartingsIff(facts, i + 1, j + 1);
  }

  lemma ShareByKey(m: Markup, facts: seq<Fact>, blocks: seq<Block>, i: nat, j: nat)
    requires i < |facts| && j < |facts| && Given(m, facts, j) != "" && InSome(blocks, i)
    requires forall b :: b in blocks ==> HoldsSome(m, facts, b)
    ensures Share(blocks, i, j) <==> Partings(facts, i + 1) == Partings(facts, j + 1)
  {
    var x :| 0 <= x < |blocks| && OnLine(blocks[x], i);
    assert blocks[x] in blocks;
    SameKey(m, facts, blocks[x], i, j);
    if Share(blocks, i, j) {
      var b :| b in blocks && OnLine(b, i) && OnLine(b, j);
      SameKey(m, facts, b, i, j);
    }
  }

  lemma SameKey(m: Markup, facts: seq<Fact>, b: Block, i: nat, j: nat)
    requires i < |facts| && j < |facts| && Given(m, facts, j) != "" && HoldsSome(m, facts, b) && OnLine(b, i)
    ensures OnLine(b, j) <==> Partings(facts, i + 1) == Partings(facts, j + 1)
  {
    var key :| Holds(m, facts, b, key, |facts|);
    assert Stands(m, facts, i, key, |facts|);
    assert OnLine(b, j) <==> Stands(m, facts, j, key, |facts|);
  }

  // ----- the text of a block

  /** The first character of a line's part. */
  predicate Begins(b: Block, p: nat) {
    p < |b.text| == |b.lineOf| && (p == 0 || b.lineOf[p - 1] != b.lineOf[p])
  }

  /** From `p` on stands the whole text `t` of one line, behind a space exactly where two ASCII characters meet. */
  predicate IsPart(b: Block, p: nat, t: string) {
    && p < |b.text| == |b.lineOf| && t != ""
    && var q := if p > 0 && b.text[p - 1] < '\U{80}' && t[0] < '\U{80}' then p + 1 else p;
       && q + |t| <= |b.text| && (q > p ==> b.text[p] == ' ') && b.text[q..q + |t|] == t
       && (forall k :: p <= k < q + |t| ==> b.lineOf[k] == b.lineOf[p])
       && (q + |t| < |b.text| ==> b.lineOf[q + |t|] > b.lineOf[p])
  }

  ghost predicate PartAt(m: Markup, facts: seq<Fact>, b: Block, p: nat) {
    && p < |b.lineOf| && 1 <= b.lineOf[p] <= |facts|
    && IsPart(b, p, Given(m, facts, b.lineOf[p] - 1))
  }

  ghost predicate Laid(m: Markup, facts: seq<Fact>, b: Block, n: nat) {
    && |b.lineOf| == |b.text| && (forall k :: 0 <= k < |b.lineOf| ==> b.lineOf[k] <= n)
    && forall p: nat :: Begins(b, p) ==> PartAt(m, facts, b, p)
  }

  lemma PartGrows(b: Block, a: Block, p: nat, t: string, line: nat)
    requires IsPart(b, p, t) && |b.lineOf| == |b.text| <= |a.text| == |a.lineOf|
    requires a.text[..|b.text|] == b.text && a.lineOf[..|b.text|] == b.lineOf
    requires forall k :: |b.text| <= k < |a.text| ==> a.lineOf[k] == line
    requires b.lineOf[p] < line
    ensures IsPart(a, p, t)
  {
    forall k | 0 <= k < |b.text|
      ensures a.text[k] == b.text[k] && a.lineOf[k] == b.lineOf[k]
    {
      assert a.text[..|b.text|][k] == a.text[k] && a.lineOf[..|b.text|][k] == a.lineOf[k];
    }
    var q := if p > 0 && b.text[p - 1] < '\U{80}' && t[0] < '\U{80}' then p + 1 else p;
    PrefixSlice(a.text, b.text, q, q + |t|);
  }

  lemma PrefixSlice(a: string, b: string, i: nat, j: nat)
    requires |b| <= |a| && a[..|b|] == b && i <= j <= |b|
    ensures a[i..j] == b[i..j]
  {
    assert a == b + a[|b|..];
  }

  /** `a` is `b` with one more line's part. */
  ghost predicate Longer(b: Block, a: Block, t: string, line: nat) {
    && |b.lineOf| == |b.text| < |a.text| == |a.lineOf| && a.text[..|b.text|] == b.text && a.lineOf[..|b.text|] == b.lineOf
    && (forall k :: |b.text| <= k < |a.text| ==> a.lineOf[k] == line)
    && IsPart(a, |b.text|, t)
  }

  lemma LongerPart(m: Markup, facts: seq<Fact>, b: Block, a: Block, t: string, line: nat, p: nat)
    requires 1 <= line <= |facts| && t == Given(m, facts, line - 1) && Longer(b, a, t, line) && Begins(a, p)
    requires p < |b.text| ==> PartAt(m, facts, b, p) && b.lineOf[p] < line
    ensures PartAt(m, facts, a, p)
  {
    if p < |b.text| {
      EarlierPart(b, a, p);
      PartGrows(b, a, p, Given(m, facts, b.lineOf[p] - 1), line);
    } else {
      BeginsWithin(b, a, t, line, p);
    }
  }

  lemma BeginsWithin(b: Block, a: Block, t: string, line: nat, p: nat)
    requires Longer(b, a, t, line) && Begins(a, p)
    ensures p <= |b.text|
  {
  }

  lemma LongerLaid(m: Markup, facts: seq<Fact>, b: Block, a: Block, t: string, before: nat, line: nat)
    requires 1 <= line <= |facts| && line == before + 1 && t == Given(m, facts, line - 1) && Longer(b, a, t, line)
    requires Laid(m, facts, b, before)
    ensures Laid(m, facts, a, line)
  {
    forall k | 0 <= k < |a.lineOf|
      ensures a.lineOf[k] <= line
    {
      assert k < |b.lineOf| ==> a.lineOf[..|b.text|][k] == b.lineOf[k];
    }
    forall p: nat | Begins(a, p)
      ensures PartAt(m, facts, a, p)
    {
      if p < |b.text| {
        EarlierPart(b, a, p);
      }
      LongerPart(m, facts, b, a, t, line, p);
    }
  }

  lemma AppendLaid(m: Markup, facts: seq<Fact>, b: Block, n: nat, line: nat)
    requires n < |facts| && line == n + 1 && Laid(m, facts, b, n)
    ensures Laid(m, facts, Append(b, Given(m, facts, n), line), line)
  {
    var t := Given(m, facts, n);
    GivenIsStripped(m, facts, n);
    if t != "" {
      AppendIs(b, t, line);
      LongerLaid(m, facts, b, Append(b, t, line), t, n, line);
    }
  }

  lemma EarlierPart(b: Block, a: Block, p: nat)
    requires p < |b.text| == |b.lineOf| <= |a.text| == |a.lineOf| && a.lineOf[..|b.text|] == b.lineOf
    ensures a.lineOf[p] == b.lineOf[p] && (Begins(a, p) <==> Begins(b, p))
  {
    assert a.lineOf[..|b.text|][p] == b.lineOf[p];
    assert p > 0 ==> a.lineOf[..|b.text|][p - 1] == b.lineOf[p - 1];
  }

  lemma AppendIs(b: Block, t: string, line: nat)
    requires t != "" && Strip(t) == t && |b.lineOf| == |b.text|
    ensures Longer(b, Append(b, t, line), t, line)
  {
  }

  ghost predicate AllLaid(m: Markup, facts: seq<Fact>, s: State, n: nat) {
    Laid(m, facts, s.current, n) && forall b :: b in s.blocks ==> Laid(m, facts, b, n)
  }

  lemma LaidNext(m: Markup, facts: seq<Fact>, s: State, t: State, n: nat, line: nat)
    requires n < |facts| && line == n + 1 && AllLaid(m, facts, s, n)
    requires var u := if facts[n].Parts() then Flush(s) else s;
      t.blocks == u.blocks && t.current == Append(u.current, Given(m, facts, n), line)
    ensures AllLaid(m, facts, t, line)
  {
    AppendLaid(m, facts, s.current, n, line);
    AppendLaid(m, facts, EMPTY, n, line);
    forall b | b in t.blocks
      ensures Laid(m, facts, b, line)
    {
      assert Laid(m, facts, b, n);
    }
  }

  lemma {:induction false} ScanLaid(m: Markup, facts: seq<Fact>, n: nat)
    requires n <= |facts|
    ensures AllLaid(m, facts, Scan(m, facts, n), n)
  {
    if n > 0 {
      ScanLaid(m, facts, n - 1);
      ScanNext(m, facts, n - 1);
      LaidNext(m, facts, Scan(m, facts, n - 1), Scan(m, facts, n), n - 1, n);
    } else {
      NothingLaid(m, facts);
    }
  }

  lemma NothingLaid(m: Markup, facts: seq<Fact>)
    ensures AllLaid(m, facts, START, 0)
  {
  }

  /** A block is made of what its lines give, line by line, each whole and in one piece. */
  lemma BlockIsLaid(m: Markup, lines: seq<string>, b: Block)
    requires b in ProseBlocks(m, lines)
    ensures Laid(m, Facts(m, Outside, lines), b, |lines|)
  {
    BlocksAreScanned(m, lines);
    ScanLaid(m, Facts(m, Outside, lines), |lines|);
  }

  lemma {:induction false} PartBegins(b: Block, k: nat) returns (p: nat)
    requires k < |b.lineOf| == |b.text|
    ensures p <= k && b.lineOf[p] == b.lineOf[k] && Begins(b, p)
  {
    p := k;
    if k > 0 && b.lineOf[k - 1] == b.lineOf[k] {
      p := PartBegins(b, k - 1);
    }
  }

  /** From `p` on stands the text `t`, each character with this line's number. */
  predicate StandsIn(b: Block, p: nat, t: string, line: nat) {
    p + |t| <= |b.text| == |b.lineOf| && b.text[p..p + |t|] == t && forall k :: p <= k < p + |t| ==> b.lineOf[k] == line
  }

  lemma PartStands(b: Block, q: nat, t: string) returns (p: nat)
    requires IsPart(b, q, t)
    ensures q < |b.lineOf| && StandsIn(b, p, t, b.lineOf[q])
  {
    p := if q > 0 && b.text[q - 1] < '\U{80}' && t[0] < '\U{80}' then q + 1 else q;
  }

  lemma LaidStands(m: Markup, facts: seq<Fact>, b: Block, n: nat, i: nat) returns (p: nat)
    requires i < |facts| && Laid(m, facts, b, n) && OnLine(b, i)
    ensures StandsIn(b, p, Given(m, facts, i), i + 1)
  {
    var k :| 0 <= k < |b.lineOf| && b.lineOf[k] == i + 1;
    var q := PartBegins(b, k);
    assert PartAt(m, facts, b, q);
    p := PartStands(b, q, Given(m, facts, i));
  }

  /** Every line of prose but those of a checklist stands in some block, whole and under its own number. */
  lemma ProseStands(m: Markup, lines: seq<string>, i: nat) returns (b: Block, p: nat)
    requires i < |lines| && Given(m, Facts(m, Outside, lines), i) != ""
    ensures b in ProseBlocks(m, lines) && StandsIn(b, p, Given(m, Facts(m, Outside, lines), i), i + 1)
  {
    InSomeIff(m, lines, i);
    b := SomeBlock(ProseBlocks(m, lines), i);
    BlockIsLaid(m, lines, b);
    p := LaidStands(m, Facts(m, Outside, lines), b, |lines|, i);
  }

  lemma SomeBlock(blocks: seq<Block>, i: int) returns (b: Block)
    requires InSome(blocks, i)
    ensures b in blocks && OnLine(b, i)
  {
    var x :| 0 <= x < |blocks| && OnLine(blocks[x], i);
    b := blocks[x];
  }
}
