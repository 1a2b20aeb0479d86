/** Dropping unknown metadata rows (`scripts/fix_roadmap_drift.py`) against the field check of
    `scripts/check_roadmap_format.py`: the two cut the block into lines differently. */
module TemplateFields {
  import opened TextLines
  import opened Template

  const OPEN := "<!-- BE-METADATA -->\n"
  const CLOSE := "\n<!-- /BE-METADATA -->"

  datatype Block = NoBlock | Block(start: nat, end: nat)

  /** The metadata block: from the first opening mark to the first closing mark behind it. */
  function MetaBlock(s: string): (b: Block)
    ensures b.Block? ==> |OPEN| <= b.start <= b.end && At(s, CLOSE, b.end)
  {
    var p := Find(s, OPEN, 0);
    if p == |s| then NoBlock
    else
      var q := Find(s, CLOSE, p + |OPEN|);
      if q == |s| then NoBlock else Block(p + |OPEN|, q)
  }

  datatype Key = NotARow | Key(name: string)

  /** `| key | value |`: the shortest key that leaves a value. */
  function RowKey(line: string): Key {
    var body := StripRight(line);
    if StartsWith(line, "| ") && EndsWith(body, " |") && |line| > 3 then
      var i := Find(line, " | ", 3);
      if i + 5 < |body| then Key(Strip(line[2..i])) else NotARow
    else NotARow
  }

  predicate Unknown(line: string, known: seq<string>) {
    RowKey(line).Key? && RowKey(line).name !in known
  }

  /** A row as its pattern takes it: a key and a value between bars, then nothing but white space. */
  ghost predicate IsRow(line: string, key: string, value: string, end: string) {
    key != "" && value != "" && (forall c :: c in end ==> IsSpace(c)) && line == "| " + key + " | " + value + " |" + end
  }

  ghost predicate SomeRow(line: string, key: string) {
    exists value, end :: IsRow(line, key, value, end)
  }

  /** A line is a row exactly when it can be taken so, and its name is the shortest key, stripped. */
  lemma RowKeyIff(line: string)
    ensures RowKey(line).Key? <==> exists key :: SomeRow(line, key)
    ensures RowKey(line).Key? ==> exists key ::
      SomeRow(line, key) && RowKey(line).name == Strip(key) && forall other :: SomeRow(line, other) ==> |key| <= |other|
  {
    if RowKey(line).Key? {
      var key := ShortestKey(line);
    }
    if key :| SomeRow(line, key) {
      var value, end :| IsRow(line, key, value, end);
      RowHasKey(line, key, value, end);
    }
  }

  lemma ShortestKey(line: string) returns (key: string)
    requires RowKey(line).Key?
    ensures SomeRow(line, key) && RowKey(line).name == Strip(key)
    ensures forall other :: SomeRow(line, other) ==> |key| <= |other|
  {
    var body, i := StripRight(line), Find(line, " | ", 3);
    key := line[2..i];
    StripRightEnd(line);
    RowIsCut(line, body, i);
    forall other | SomeRow(line, other)
      ensures |key| <= |other|
    {
      var value, end :| IsRow(line, other, value, end);
      KeyAt(line, other, value, end);
    }
  }

  lemma {:induction false} StripRightEnd(s: string)
    ensures |StripRight(s)| <= |s| && StripRight(s) == s[..|StripRight(s)|]
    ensures forall c :: c in s[|StripRight(s)|..] ==> IsSpace(c)
  {
    if s != "" && IsSpace(s[|s| - 1]) {
      StripRightEnd(s[..|s| - 1]);
      assert s[|StripRight(s)|..] == s[..|s| - 1][|StripRight(s)|..] + [s[|s| - 1]];
    }
  }

  lemma RowIsCut(line: string, body: string, i: nat)
    requires |body| <= |line| && body == line[..|body|] && forall c :: c in line[|body|..] ==> IsSpace(c)
    requires StartsWith(line, "| ") && EndsWith(body, " |") && 3 <= i && i + 5 < |body| && At(line, " | ", i)
    ensures SomeRow(line, line[2..i])
  {
    var value, end := line[i + 3..|body| - 2], line[|body|..];
    assert line[..2] == "| " && line[i..i + 3] == " | " && body[|body| - 2..] == " |";
    CutInFive(line, i, |body|);
    assert IsRow(line, line[2..i], value, end);
  }

  lemma CutInFive(line: string, i: nat, n: nat)
    requires 3 <= i && i + 5 < n <= |line|
    ensures line == line[..2] + line[2..i] + line[i..i + 3] + line[i + 3..n - 2] + line[..n][n - 2..] + line[n..]
  {
  }

  /** Wherever such a row has its middle, a search finds one there or before. */
  lemma KeyAt(line: string, key: string, value: string, end: string)
    requires IsRow(line, key, value, end)
    ensures |line| > 3 && At(line, " | ", 2 + |key|) && Find(line, " | ", 3) <= 2 + |key|
  {
    MiddleAt("| " + key, value + " |" + end);
    FiveParts("| ", key, " | ", value, " |", end);
    FoundBy(line, " | ", 3, 2 + |key|);
  }

  lemma FiveParts(a: string, b: string, c: string, d: string, e: string, f: string)
    ensures a + b + c + d + e + f == (a + b) + (c + (d + e + f))
  {
  }

  lemma FoundBy(s: string, needle: string, from: nat, k: nat)
    requires needle != "" && from <= k && At(s, needle, k)
    ensures from <= |s| && Find(s, needle, from) <= k
  {
  }

  lemma MiddleAt(a: string, b: string)
    ensures At(a + (" | " + b), " | ", |a|)
  {
    assert (a + (" | " + b))[|a|..|a| + 3] == " | ";
  }

  lemma RowHasKey(line: string, key: string, value: string, end: string)
    requires IsRow(line, key, value, end)
    ensures RowKey(line).Key?
  {
    var front := "| " + key + " | " + value + " |";
    KeyAt(line, key, value, end);
    StripRightOver(front, end);
    assert line == front + end;
    FrontIs(key, value);
    assert line[..2] == front[..2];
  }

  lemma FrontIs(key: string, value: string)
    ensures var front := "| " + key + " | " + value + " |";
      |front| == |key| + |value| + 7 && front[..2] == "| " && EndsWith(front, " |") && front[|front| - 1] == '|'
  {
  }

  lemma {:induction false} StripRightOver(s: string, end: string)
    requires s != "" && !IsSpace(s[|s| - 1]) && forall c :: c in end ==> IsSpace(c)
    ensures StripRight(s + end) == s
    decreases |end|
  {
    if end == "" {
      assert s + end == s;
    } else {
      var n := |end| - 1;
      assert (s + end)[..|s + end| - 1] == s + end[..n];
      assert end[n] in end;
      StripRightOver(s, end[..n]);
    }
  }

  // ----- two ways to cut a block

  /** A line without its terminator. */
  function Bare(l: string): string {
    if EndsWith(l, "\r\n") then l[..|l| - 2]
    else if Terminated(l) then l[..|l| - 1]
    else l
  }

  function BareAll(lines: seq<string>): seq<string> {
    if lines == [] then [] else [Bare(lines[0])] + BareAll(lines[1..])
  }

  /** `splitlines()`, which cuts at every line boundary character. */
  function BareLines(s: string): seq<string> {
    BareAll(Lines(s))
  }

  /** What a multi-line pattern takes for lines: cut at newlines alone. */
  function PatternLines(s: string): seq<string> {
    var i := Find(s, "\n", 0);
    if i == |s| then [s] else [s[..i]] + PatternLines(s[i + 1..])
  }

  /** `"\n".join`. */
  function JoinLinesWith(lines: seq<string>): string {
    if lines == [] then "" else if |lines| == 1 then lines[0] else lines[0] + "\n" + JoinLinesWith(lines[1..])
  }

  ghost predicate SomeUnknown(lines: seq<string>, known: seq<string>) {
    exists l :: l in lines && Unknown(l, known)
  }

  function Kept(lines: seq<string>, known: seq<string>): seq<string> {
    if lines == [] then []
    else if Unknown(lines[0], known) then Kept(lines[1..], known)
    else [lines[0]] + Kept(lines[1..], known)
  }

  /** The checker's verdict on the fields: some row of the block is unknown. */
  ghost predicate Flagged(text: string, known: seq<string>) {
    var b := MetaBlock(text);
    b.Block? && SomeUnknown(PatternLines(text[b.start..b.end]), known)
  }

  function DropFields(text: string, known: seq<string>): string {
    var b := MetaBlock(text);
    if b.NoBlock? then text
    else
      var lines := BareLines(text[b.start..b.end]);
      if Kept(lines, known) == lines then text
      else text[..b.start] + JoinLinesWith(Kept(lines, known)) + text[b.end..]
  }

  lemma {:induction false} KeptIs(lines: seq<string>, known: seq<string>)
    ensures |Kept(lines, known)| <= |lines|
    ensures forall l :: l in Kept(lines, known) <==> l in lines && !Unknown(l, known)
    ensures |Kept(lines, known)| == |lines| <==> !SomeUnknown(lines, known)
    ensures !SomeUnknown(lines, known) ==> Kept(lines, known) == lines
  {
    if lines != [] {
      KeptIs(lines[1..], known);
      assert lines == [lines[0]] + lines[1..];
      assert !SomeUnknown(lines, known) <==> !Unknown(lines[0], known) && !SomeUnknown(lines[1..], known);
    }
  }

  /** Each line that is no unknown row is kept as often as it was there, and in the same order. */
  lemma {:induction false} KeptInOrder(lines: seq<string>, known: seq<string>)
    ensures IsSubsequence(Kept(lines, known), lines)
    ensures forall l :: multiset(Kept(lines, known))[l] == if Unknown(l, known) then 0 else multiset(lines)[l]
  {
    if lines != [] {
      var kept := Kept(lines[1..], known);
      KeptInOrder(lines[1..], known);
      assert lines == [lines[0]] + lines[1..];
      if !Unknown(lines[0], known) {
        assert ([lines[0]] + kept)[1..] == kept;
      } else if kept != [] {
        assert kept[0] in kept;
        KeptIs(lines[1..], known);
      }
    }
  }

  lemma KeptStep(lines: seq<string>, known: seq<string>, i: nat, kept: seq<string>)
    requires i < |lines|
    ensures kept + Kept(lines[i..], known)
         == (if Unknown(lines[i], known) then kept else kept + [lines[i]]) + Kept(lines[i + 1..], known)
  {
    assert lines[i..][1..] == lines[i + 1..];
    Regroup(kept, [lines[i]], Kept(lines[i + 1..], known));
  }

  method KeepKnown(lines: seq<string>, known: seq<string>) returns (kept: seq<string>, changed: bool)
    ensures kept == Kept(lines, known) && (changed <==> |kept| < |lines|)
  {
    kept, changed := [], false;
    for i := 0 to |lines|
      invariant kept + Kept(lines[i..], known) == Kept(lines, known)
      invariant |kept| <= i && (changed <==> |kept| < i)
    {
      KeptStep(lines, known, i, kept);
      if Unknown(lines[i], known) {
        changed := true;
      } else {
        kept := kept + [lines[i]];
      }
    }
  }

  /** `_drop_unknown_fields`. */
  method DropUnknownFields(text: string, known: seq<string>) returns (r: string)
    ensures r == DropFields(text, known)
  {
    var b := MetaBlock(text);
    if b.NoBlock? {
      return text;
    }
    var lines := BareLines(text[b.start..b.end]);
    var kept, changed := KeepKnown(lines, known);
    KeptIs(lines, known);
    r := if !changed then text else text[..b.start] + JoinLinesWith(kept) + text[b.end..];
  }

  // ----- a joined block is cut where it was joined

  ghost predicate AllOneLine(lines: seq<string>) {
    forall l :: l in lines ==> OneLine(l)
  }

  lemma {:induction false} BareIs(l: string)
    requires IsLine(l)
    ensures OneLine(Bare(l))
  {
    if |l| > 1 && !IsBreak(l[0]) {
      BareIs(l[1..]);
      assert EndsWith(l[1..], "\r\n") <==> EndsWith(l, "\r\n") by {
        assert |l| > 2 ==> l[1..][|l| - 3..] == l[|l| - 2..];
      }
      assert Bare(l) == [l[0]] + Bare(l[1..]);
    }
  }

  lemma {:induction false} BareLinesAre(lines: seq<string>)
    requires forall i :: 0 <= i < |lines| ==> IsLine(lines[i])
    ensures AllOneLine(BareAll(lines)) && |BareAll(lines)| == |lines|
  {
    if lines != [] {
      BareIs(lines[0]);
      BareLinesAre(lines[1..]);
    }
  }

  lemma OneBareLine(l: string)
    requires OneLine(l)
    ensures BareLines(l) == (if l == "" then [] else [l]) && PatternLines(l) == [l]
    ensures Bare(l + "\n") == l
  {
    LineOf(l);
    NoNewline(l);
    CarriageEnd(l);
    CarriageEnd(l + "\n");
    if l != "" {
      LinesCons(l, "");
      assert l + "" == l;
      assert Lines(l) == [l];
      assert !IsBreak(l[|l| - 1]);
      assert BareAll([l]) == [Bare(l)];
    }
  }

  lemma CarriageEnd(s: string)
    ensures EndsWith(s, "\r\n") <==> |s| >= 2 && s[|s| - 2] == '\r' && s[|s| - 1] == '\n'
  {
    if |s| >= 2 {
      assert s[|s| - 2..] == [s[|s| - 2], s[|s| - 1]];
    }
  }

  lemma NewlineAt(s: string, i: nat)
    ensures At(s, "\n", i) <==> i < |s| && s[i] == '\n'
  {
    if i < |s| {
      assert s[i..i + 1] == [s[i]];
    }
  }

  lemma NoNewline(l: string)
    requires OneLine(l)
    ensures Find(l, "\n", 0) == |l|
  {
    NewlineAt(l, Find(l, "\n", 0));
  }

  lemma FirstNewline(l: string, rest: string)
    requires OneLine(l)
    ensures var s := l + "\n" + rest;
      Find(s, "\n", 0) == |l| && PatternLines(s) == [l] + PatternLines(rest)
  {
    var s := l + "\n" + rest;
    NewlineAt(s, |l|);
    NewlineAt(s, Find(s, "\n", 0));
    assert s[..|l|] == l && s[|l| + 1..] == rest;
  }

  lemma FirstBare(l: string, rest: string)
    requires OneLine(l)
    ensures BareLines(l + "\n" + rest) == [l] + BareLines(rest)
  {
    OneBareLine(l);
    LineOf(l);
    LinesCons(l + "\n", rest);
  }

  /** Cut either way, the text gives nothing but these lines and empty ones. */
  ghost predicate OnlyLines(s: string, lines: seq<string>) {
    forall l :: l in BareLines(s) || l in PatternLines(s) ==> l in lines || l == ""
  }

  lemma OneOfThem(l: string, lines: seq<string>)
    requires OneLine(l) && (l in lines || l == "")
    ensures OnlyLines(l, lines)
  {
    OneBareLine(l);
  }

  lemma OneMoreLine(l: string, rest: string, lines: seq<string>)
    requires OneLine(l) && OnlyLines(rest, lines)
    ensures OnlyLines(l + "\n" + rest, [l] + lines)
  {
    FirstNewline(l, rest);
    FirstBare(l, rest);
  }

  /** However short the joined lines are cut, at a newline, nothing but them is found. */
  lemma {:induction false} JoinedLines(kept: seq<string>, k: nat)
    requires AllOneLine(kept)
    requires var j := JoinLinesWith(kept); k <= |j| && (k == |j| || j[k] == '\n')
    ensures OnlyLines(JoinLinesWith(kept)[..k], kept)
  {
    var j := JoinLinesWith(kept);
    if |kept| <= 1 || k <= |kept[0]| {
      FirstJoined(kept, k);
    } else {
      var l, rest := kept[0], JoinLinesWith(kept[1..]);
      var m := k - |l| - 1;
      assert j == l + "\n" + rest;
      JoinedLines(kept[1..], m);
      assert j[..k] == l + "\n" + rest[..m];
      OneMoreLine(l, rest[..m], kept[1..]);
      assert kept == [l] + kept[1..];
    }
  }

  lemma FirstJoined(kept: seq<string>, k: nat)
    requires AllOneLine(kept)
    requires var j := JoinLinesWith(kept); k <= |j| && (k == |j| || j[k] == '\n')
    requires |kept| <= 1 || k <= |kept[0]|
    ensures OnlyLines(JoinLinesWith(kept)[..k], kept)
  {
    var j := JoinLinesWith(kept);
    if kept == [] {
      OneOfThem("", kept);
      assert j[..k] == "";
    } else {
      var l := kept[0];
      OneOfThem(l, kept);
      assert j[..|l|] == l;
      assert j[..k] == l;
    }
  }

  lemma KeptAreKnown(s: string, lines: seq<string>, known: seq<string>)
    requires OnlyLines(s, Kept(lines, known))
    ensures !SomeUnknown(BareLines(s), known) && !SomeUnknown(PatternLines(s), known)
  {
    KeptIs(lines, known);
    EmptyIsKnown(known);
  }

  lemma EmptyIsKnown(known: seq<string>)
    ensures !Unknown("", known)
  {
  }

  // ----- the block after the fix

  /** The text with its block replaced. */
  function Replaced(text: string, j: string): string
    requires MetaBlock(text).Block?
  {
    var b := MetaBlock(text);
    text[..b.start] + j + text[b.end..]
  }

  /** The block of a text in which a block was replaced: it begins there, and ends there or before. */
  lemma ReplacedBlock(text: string, j: string) returns (i: nat, k: nat)
    requires MetaBlock(text).Block?
    ensures var u := Replaced(text, j);
      && MetaBlock(u) == Block(i, k) && i == MetaBlock(text).start && i <= k <= i + |j|
      && k <= |u| && u[i..k] == j[..k - i] && (k - i == |j| || j[k - i] == '\n')
  {
    var b := MetaBlock(text);
    var a, c := text[..b.start], text[b.end..];
    SameOpening(text, a + j + c, b.start - |OPEN|);
    NewClosing(a, j, c);
    i, k := b.start, Find(a + j + c, CLOSE, |a|);
  }

  lemma NewClosing(a: string, j: string, c: string)
    requires StartsWith(c, CLOSE)
    ensures var u := a + j + c; var q := Find(u, CLOSE, |a|);
      && |a| <= q <= |a| + |j| && q < |u| && u[|a|..q] == j[..q - |a|]
      && (q == |a| + |j| || j[q - |a|] == '\n')
  {
    var u := a + j + c;
    Shifted(a + j, c, CLOSE);
    var q := Find(u, CLOSE, |a|);
    CloseStarts(u, q);
    assert u[..|a| + |j|] == a + j;
  }

  lemma CloseStarts(u: string, q: nat)
    requires At(u, CLOSE, q)
    ensures q < |u| && u[q] == '\n'
  {
    FirstAt(u, CLOSE, q);
  }

  lemma FirstAt(s: string, needle: string, i: nat)
    requires needle != "" && At(s, needle, i)
    ensures s[i] == needle[0]
  {
    assert s[i..i + |needle|][0] == s[i];
  }

  lemma Shifted(a: string, b: string, needle: string)
    requires StartsWith(b, needle)
    ensures At(a + b, needle, |a|)
  {
    assert (a + b)[|a|..|a| + |needle|] == b[..|needle|];
  }

  lemma SameOpening(text: string, u: string, p: nat)
    requires p < |text| && Find(text, OPEN, 0) == p
    requires p + |OPEN| <= |u| && u[..p + |OPEN|] == text[..p + |OPEN|]
    ensures Find(u, OPEN, 0) == p
  {
    forall k | 0 <= k < p + |OPEN|
      ensures u[k] == text[k]
    {
      assert u[..p + |OPEN|][k] == text[..p + |OPEN|][k];
    }
    FoundAlike(text, u, OPEN, p);
  }

  /** What is found depends on the text up to its end. */
  lemma FoundAlike(s: string, t: string, needle: string, p: nat)
    requires needle != "" && p < |s| && Find(s, needle, 0) == p
    requires p + |needle| <= |t| && forall k :: 0 <= k < p + |needle| ==> t[k] == s[k]
    ensures Find(t, needle, 0) == p
  {
    forall i | 0 <= i <= p
      ensures At(t, needle, i) <==> At(s, needle, i)
    {
      AtAlike(s, t, needle, i);
    }
    FindIs(t, needle, 0, p);
  }

  lemma AtAlike(s: string, t: string, needle: string, i: nat)
    requires i + |needle| <= |s| && i + |needle| <= |t| && forall k :: i <= k < i + |needle| ==> t[k] == s[k]
    ensures At(t, needle, i) <==> At(s, needle, i)
  {
    assert t[i..i + |needle|] == s[i..i + |needle|];
  }

  lemma UnchangedUnless(text: string, known: seq<string>)
    ensures var b := MetaBlock(text);
      b.Block? ==>
        b.end <= |text|
        && (DropFields(text, known) == text || SomeUnknown(BareLines(text[b.start..b.end]), known))
  {
    var b := MetaBlock(text);
    if b.Block? {
      KeptIs(BareLines(text[b.start..b.end]), known);
    }
  }

  /** After the fix no line of the block, cut either way, is an unknown row. */
  lemma DroppedBlock(text: string, known: seq<string>)
    requires var b := MetaBlock(text); b.Block? && SomeUnknown(BareLines(text[b.start..b.end]), known)
    ensures var u := DropFields(text, known); var c := MetaBlock(u);
      && c.Block?
      && !SomeUnknown(BareLines(u[c.start..c.end]), known) && !SomeUnknown(PatternLines(u[c.start..c.end]), known)
  {
    var b := MetaBlock(text);
    var lines := BareLines(text[b.start..b.end]);
    KeptIs(lines, known);
    BlockLines(text[b.start..b.end], known);
    ReplacedIsKnown(text, lines, known);
  }

  lemma ReplacedIsKnown(text: string, lines: seq<string>, known: seq<string>)
    requires MetaBlock(text).Block? && AllOneLine(Kept(lines, known))
    ensures var u := Replaced(text, JoinLinesWith(Kept(lines, known))); var c := MetaBlock(u);
      && c.Block?
      && !SomeUnknown(BareLines(u[c.start..c.end]), known) && !SomeUnknown(PatternLines(u[c.start..c.end]), known)
  {
    var j := JoinLinesWith(Kept(lines, known));
    var i, k := ReplacedBlock(text, j);
    KnownPart(Replaced(text, j), i, k, lines, known);
  }

  lemma KnownPart(u: string, i: nat, k: nat, lines: seq<string>, known: seq<string>)
    requires AllOneLine(Kept(lines, known)) && i <= k <= |u|
    requires var j := JoinLinesWith(Kept(lines, known));
      k - i <= |j| && u[i..k] == j[..k - i] && (k - i == |j| || j[k - i] == '\n')
    ensures !SomeUnknown(BareLines(u[i..k]), known) && !SomeUnknown(PatternLines(u[i..k]), known)
  {
    JoinedLines(Kept(lines, known), k - i);
    KeptAreKnown(u[i..k], lines, known);
  }

  lemma BlockLines(block: string, known: seq<string>)
    ensures AllOneLine(Kept(BareLines(block), known))
  {
    LinesAreProper(block);
    BareLinesAre(Lines(block));
    KeptIs(BareLines(block), known);
  }

  /** The fixer removes every unknown row it sees; what the checker still flags it never saw: a row with a
      line boundary inside that is no newline, in a block where no other row was unknown. */
  lemma FlaggedIff(text: string, known: seq<string>)
    ensures Flagged(DropFields(text, known), known)
       <==> Flagged(text, known)
            && !SomeUnknown(BareLines(text[MetaBlock(text).start..MetaBlock(text).end]), known)
  {
    var b := MetaBlock(text);
    if b.Block? {
      KeptIs(BareLines(text[b.start..b.end]), known);
      if SomeUnknown(BareLines(text[b.start..b.end]), known) {
        DroppedBlock(text, known);
      }
    }
  }

  /** A second run drops nothing. */
  lemma DropSettles(text: string, known: seq<string>)
    ensures DropFields(DropFields(text, known), known) == DropFields(text, known)
  {
    var b := MetaBlock(text);
    if b.Block? {
      UnchangedUnless(text, known);
      if SomeUnknown(BareLines(text[b.start..b.end]), known) {
        DroppedBlock(text, known);
        UnchangedUnless(DropFields(text, known), known);
      }
    }
  }

  // ----- when the two ways to cut agree, and when they do not

  predicate NewlinesOnly(s: string) {
    forall i :: 0 <= i < |s| && IsBreak(s[i]) ==> s[i] == '\n'
  }

  lemma {:induction false} SameLines(s: string)
    requires NewlinesOnly(s)
    ensures forall l :: l in PatternLines(s) ==> l in BareLines(s) || l == ""
    decreases |s|
  {
    var i := Find(s, "\n", 0);
    forall j | 0 <= j < i
      ensures !IsBreak(s[j])
    {
      NewlineAt(s, j);
    }
    if i == |s| {
      OneBareLine(s);
    } else {
      NewlineAt(s, i);
      var l, rest := s[..i], s[i + 1..];
      assert s == l + "\n" + rest;
      FirstBare(l, rest);
      SameLines(rest);
    }
  }

  /** In a block whose only line boundaries are newlines no unknown row is left. */
  lemma UnknownRowsGone(text: string, known: seq<string>)
    requires var b := MetaBlock(text); b.Block? ==> b.end <= |text| && NewlinesOnly(text[b.start..b.end])
    ensures !Flagged(DropFields(text, known), known)
  {
    var b := MetaBlock(text);
    FlaggedIff(text, known);
    if b.Block? {
      SameLines(text[b.start..b.end]);
      EmptyIsKnown(known);
    }
  }

  lemma BlockIs(row: string)
    requires '\n' !in row
    ensures MetaBlock(OPEN + row + CLOSE) == Block(|OPEN|, |OPEN| + |row|)
  {
    var t := OPEN + row + CLOSE;
    var e := |OPEN| + |row|;
    Shifted("", OPEN + (row + CLOSE), OPEN);
    assert "" + (OPEN + (row + CLOSE)) == t;
    Shifted(OPEN + row, CLOSE, CLOSE);
    forall j | |OPEN| <= j < e
      ensures !At(t, CLOSE, j)
    {
      assert t[j] == row[j - |OPEN|];
      assert |t| >= j + |CLOSE| ==> t[j..j + |CLOSE|][0] == t[j];
    }
    FindIs(t, CLOSE, |OPEN|, e);
  }

  const HIDDEN := "| T | a\U{2028}b |"

  const HIDDEN_HEAD := "| T | a"
  const HIDDEN_TAIL := "b |"

  /** A row with a line separator inside: flagged, and not removed. */
  lemma HiddenRow()
    ensures var text, known := OPEN + HIDDEN + CLOSE, ["Status"];
      Flagged(text, known) && DropFields(text, known) == text
  {
    var text, known := OPEN + HIDDEN + CLOSE, ["Status"];
    BlockIs(HIDDEN);
    BetweenMarks(HIDDEN);
    HiddenKey();
    HiddenLines();
    HiddenHalves();
    KeptIs([HIDDEN_HEAD, HIDDEN_TAIL], known);
    assert HIDDEN in PatternLines(HIDDEN);
  }

  lemma BetweenMarks(row: string)
    ensures (OPEN + row + CLOSE)[|OPEN|..|OPEN| + |row|] == row
  {
  }

  lemma HiddenKey()
    ensures Unknown(HIDDEN, ["Status"]) && PatternLines(HIDDEN) == [HIDDEN]
  {
    assert StripRight(HIDDEN) == HIDDEN;
    assert HIDDEN[3..6] == " | ";
    assert HIDDEN[2..3] == "T";
    FindIs(HIDDEN, " | ", 3, 3);
    assert StripLeft("T") == "T" && StripRight("T") == "T";
    NewlineAt(HIDDEN, Find(HIDDEN, "\n", 0));
  }

  lemma HiddenLines()
    ensures BareLines(HIDDEN) == [HIDDEN_HEAD, HIDDEN_TAIL]
  {
    assert HIDDEN == HIDDEN_HEAD + ['\U{2028}'] + HIDDEN_TAIL;
    TwoLines(HIDDEN_HEAD, '\U{2028}', HIDDEN_TAIL);
  }

  lemma HiddenHalves()
    ensures !SomeUnknown([HIDDEN_HEAD, HIDDEN_TAIL], ["Status"])
  {
    NoRow(HIDDEN_HEAD);
    NoRow(HIDDEN_TAIL);
  }

  /** A row begins with a bar, and ends with one but for white space. */
  lemma NoRow(line: string)
    requires line != "" && (line[0] != '|' || (!IsSpace(line[|line| - 1]) && line[|line| - 1] != '|'))
    ensures RowKey(line) == NotARow
  {
    if line[0] != '|' {
      assert |line| > 2 ==> line[..2][0] == line[0];
    } else {
      assert StripRight(line) == line;
      assert |line| > 2 ==> line[|line| - 2..][1] == line[|line| - 1];
    }
  }

  lemma TwoLines(a: string, c: char, b: string)
    requires OneLine(a) && OneLine(b) && b != "" && IsBreak(c) && c != '\n' && c != '\r'
    ensures BareLines(a + [c] + b) == [a, b]
  {
    LineWith(a, c);
    LinesCons(a + [c], b);
    OneBareLine(b);
    assert Bare(a + [c]) == a by { CarriageEnd(a + [c]); }
    assert BareAll([a + [c]] + Lines(b)) == [a] + BareAll(Lines(b));
  }

  lemma {:induction false} LineWith(l: string, c: char)
    requires OneLine(l) && IsBreak(c)
    ensures IsLine(l + [c])
  {
    if l != "" {
      assert (l + [c])[1..] == l[1..] + [c];
      LineWith(l[1..], c);
    }
  }
}
