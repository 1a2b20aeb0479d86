/** Both fixes in a row, `fix_unknown_fields_and_missing_sections` of `scripts/fix_roadmap_drift.py`, against
    both checks of `scripts/check_roadmap_format.py`. */
module TemplateFixer {
  import opened TextLines
  import opened Template
  import opened TemplateFix
  import opened TemplateRebuild
  import opened TemplateComplete
  import opened TemplateFields
  import TemplateExact
  import opened TemplateSettles

  function Fix(text: string, canon: seq<string>, bodies: Bodies, known: seq<string>): string
    requires forall n :: n in canon ==> n in bodies
  {
    Rebuild(DropFields(text, known), canon, bodies)
  }

  // ----- dropping rows leaves the headings

  lemma BareKind(l: string)
    requires IsLine(l)
    ensures IsFence(Bare(l) + "\n") == IsFence(l) && IsHeading(Bare(l) + "\n") == IsHeading(l)
    ensures IsHeading(l) ==> NameOf(Bare(l) + "\n") == NameOf(l)
  {
    var end := BareEnd(l);
    NewlineKeepsKind(Bare(l));
    EndKeepsKind(Bare(l), end);
  }

  lemma EndKeepsKind(b: string, end: string)
    requires (forall c :: c in end ==> IsSpace(c)) && (end != "" ==> IsBreak(end[0]))
    ensures IsFence(b + end) == IsFence(b) && IsHeading(b + end) == IsHeading(b)
    ensures IsHeading(b) ==> NameOf(b + end) == NameOf(b)
  {
    if end == "" {
      assert b + end == b;
    } else {
      KindAfter(b, end);
      if IsHeading(b) {
        HeadingEnd(b, end);
      }
    }
  }

  lemma HeadingEnd(b: string, end: string)
    requires IsHeading(b) && forall c :: c in end ==> IsSpace(c)
    ensures IsHeading(b + end) && NameOf(b + end) == NameOf(b)
  {
    assert (b + end)[..3] == b[..3];
    assert (b + end)[3..] == b[3..] + end;
    StripSpaces(b[3..], end);
  }

  /** What a line loses is its terminator. */
  lemma BareEnd(l: string) returns (end: string)
    ensures l == Bare(l) + end && (forall c :: c in end ==> IsSpace(c)) && (end != "" ==> IsBreak(end[0]))
  {
    CarriageEnd(l);
    end := l[|Bare(l)|..];
    if EndsWith(l, "\r\n") {
      assert end == "\r\n";
    } else if Terminated(l) {
      assert end == [l[|l| - 1]];
    } else {
      assert end == "";
    }
  }

  lemma {:induction false} StripSpaces(s: string, end: string)
    requires forall c :: c in end ==> IsSpace(c)
    ensures Strip(s + end) == Strip(s)
    decreases |end|
  {
    if end == "" {
      assert s + end == s;
    } else {
      assert s + end == (s + [end[0]]) + end[1..];
      StripSpaces(s + [end[0]], end[1..]);
      StripSpace(s, end[0]);
    }
  }

  function Ended(lines: seq<string>): seq<string> {
    if lines == [] then [] else [lines[0] + "\n"] + Ended(lines[1..])
  }

  lemma RowKind(l: string, known: seq<string>)
    requires Unknown(l, known)
    ensures !IsFence(l + "\n") && !IsHeading(l + "\n")
  {
    var t := (l + "\n")[..3];
    assert t[0] == l[..2][0] == '|';
    assert t[0] != FENCE[0] && t[0] != HEADING[0];
  }

  lemma {:induction false} KeptNames(lines: seq<string>, known: seq<string>, inCode: bool)
    requires forall i :: 0 <= i < |lines| ==> IsLine(lines[i])
    ensures var kept := Ended(Kept(BareAll(lines), known));
      Names(kept, inCode) == Names(lines, inCode) && InCode(kept, inCode) == InCode(lines, inCode)
  {
    if lines != [] {
      var l := lines[0];
      BareKind(l);
      KeptNames(lines[1..], known, if IsFence(l) then !inCode else inCode);
      if Unknown(Bare(l), known) {
        RowKind(Bare(l), known);
      }
    }
  }

  lemma {:induction false} EndedIsJoined(lines: seq<string>)
    requires AllOneLine(lines)
    ensures lines != [] ==> JoinLinesWith(lines) + "\n" == Join(Ended(lines))
    ensures Proper(Ended(lines))
  {
    if lines != [] {
      LineOf(lines[0]);
      EndedIsJoined(lines[1..]);
      ProperCons(lines[0] + "\n", Ended(lines[1..]));
      if |lines| > 1 {
        TextLines.Regroup(lines[0] + "\n", JoinLinesWith(lines[1..]), "\n");
      }
    }
  }

  /** The kept lines in place of a block's, each ended, scan as the block does. */
  lemma BlockNames(block: string, known: seq<string>, inCode: bool)
    ensures var j := JoinLinesWith(Kept(BareLines(block), known)) + "\n";
      && Names(Lines(j), inCode) == Names(Lines(block + "\n"), inCode)
      && InCode(Lines(j), inCode) == InCode(Lines(block + "\n"), inCode)
  {
    var kept := Kept(BareLines(block), known);
    LinesAreProper(block);
    KeptNames(Lines(block), known, inCode);
    NewlineKeepsNames(block, inCode);
    BlockLines(block, known);
    EndedIsJoined(kept);
    if kept == [] {
      BlankLine(inCode);
    } else {
      LinesOfJoin(Ended(kept));
    }
  }

  /** Between a line's end and whatever follows, only the scan of the middle counts. */
  lemma Between(a: string, m: string, n: string, c: string)
    requires a != "" && a[|a| - 1] == '\n' && m != "" && m[|m| - 1] == '\n' && n != "" && n[|n| - 1] == '\n'
    requires var code := InCode(Lines(a), false);
      Names(Lines(m), code) == Names(Lines(n), code) && InCode(Lines(m), code) == InCode(Lines(n), code)
    ensures Headings(a + m + c) == Headings(a + n + c)
    ensures InCode(Lines(a + m + c), false) == InCode(Lines(a + n + c), false)
  {
    InBetween(a, m, c);
    InBetween(a, n, c);
  }

  lemma ThreeParts(a: string, m: string, c: string)
    requires a != "" && a[|a| - 1] == '\n' && m != "" && m[|m| - 1] == '\n'
    ensures Lines(a + m + c) == Lines(a) + (Lines(m) + Lines(c))
  {
    EndedConcat(m, c);
    EndedConcat(a, m + c);
    TextLines.Regroup(a, m, c);
  }

  lemma EndedConcat(a: string, b: string)
    requires a != "" && a[|a| - 1] == '\n'
    ensures Lines(a + b) == Lines(a) + Lines(b)
  {
    LinesConcat(a, b);
  }

  lemma InBetween(a: string, m: string, c: string)
    requires a != "" && a[|a| - 1] == '\n' && m != "" && m[|m| - 1] == '\n'
    ensures var code := InCode(Lines(a), false); var behind := InCode(Lines(m), code);
      && Headings(a + m + c) == Names(Lines(a), false) + (Names(Lines(m), code) + Names(Lines(c), behind))
      && InCode(Lines(a + m + c), false) == InCode(Lines(c), behind)
  {
    ThreeParts(a, m, c);
    NamesConcat(Lines(m), Lines(c), InCode(Lines(a), false));
    NamesConcat(Lines(a), Lines(m) + Lines(c), false);
  }

  /** The text before, in and behind the block, each ended. */
  lemma DropParts(text: string, known: seq<string>)
    requires MetaBlock(text).Block? && DropFields(text, known) != text
    ensures var b := MetaBlock(text); b.end < |text|
    ensures var b := MetaBlock(text);
      var a, block, c := text[..b.start], text[b.start..b.end], text[b.end + 1..];
      && a != "" && a[|a| - 1] == '\n' && c != "" && text == a + (block + "\n") + c
      && DropFields(text, known) == a + (JoinLinesWith(Kept(BareLines(block), known)) + "\n") + c
  {
    var b := MetaBlock(text);
    OpenEnds(text);
    DropIs(text, known);
    BlockParts(text, b.start, b.end, JoinLinesWith(Kept(BareLines(text[b.start..b.end]), known)));
  }

  lemma DropIs(text: string, known: seq<string>)
    requires MetaBlock(text).Block? && DropFields(text, known) != text
    ensures MetaBlock(text).end <= |text|
    ensures var b := MetaBlock(text); var j := JoinLinesWith(Kept(BareLines(text[b.start..b.end]), known));
      DropFields(text, known) == text[..b.start] + j + text[b.end..]
  {
  }

  lemma BlockParts(text: string, i: nat, k: nat, j: string)
    requires 0 < i <= k < |text| - 1 && text[i - 1] == '\n' && text[k..] == "\n" + text[k + 1..]
    ensures var a, block, c := text[..i], text[i..k], text[k + 1..];
      && a != "" && a[|a| - 1] == '\n' && c != "" && text == a + (block + "\n") + c
      && text[..i] + j + text[k..] == a + (j + "\n") + c
  {
    ThreePieces(text, i, k);
    Regrouped(text[..i], text[i..k], "\n", text[k + 1..]);
    Regrouped(text[..i], j, "\n", text[k + 1..]);
  }

  lemma ThreePieces(text: string, i: nat, j: nat)
    requires i <= j <= |text|
    ensures text == text[..i] + text[i..j] + text[j..]
  {
  }

  lemma Regrouped(a: string, b: string, c: string, d: string)
    ensures a + b + (c + d) == a + (b + c) + d
  {
  }

  lemma ClosedEnd(x: string, c: string)
    requires c != ""
    ensures Closed(x + c) == Closed(c)
  {
  }

  lemma BlockBetween(a: string, block: string, c: string, known: seq<string>, j: string)
    requires a != "" && a[|a| - 1] == '\n' && c != ""
    requires j == JoinLinesWith(Kept(BareLines(block), known)) + "\n"
    ensures var t, u := a + (block + "\n") + c, a + j + c;
      && Headings(u) == Headings(t) && InCode(Lines(u), false) == InCode(Lines(t), false) && Closed(u) == Closed(t)
  {
    BlockNames(block, known, InCode(Lines(a), false));
    var m := block + "\n";
    assert m[|m| - 1] == '\n';
    Between(a, m, j, c);
    ClosedEnd(a + m, c);
    ClosedEnd(a + j, c);
  }

  /** Dropping rows changes no heading, and nothing of how the text ends. */
  lemma DropKeepsHeadings(text: string, known: seq<string>)
    ensures var u := DropFields(text, known);
      && Headings(u) == Headings(text) && InCode(Lines(u), false) == InCode(Lines(text), false)
      && Closed(u) == Closed(text) && Whole(u) == Whole(text)
  {
    var b := MetaBlock(text);
    if b.Block? {
      if DropFields(text, known) != text {
        DropParts(text, known);
        BlockBetween(text[..b.start], text[b.start..b.end], text[b.end + 1..], known,
                     JoinLinesWith(Kept(BareLines(text[b.start..b.end]), known)) + "\n");
      }
    }
  }

  /** The opening mark ends a line, the closing mark begins with a line's end. */
  lemma OpenEnds(text: string)
    requires MetaBlock(text).Block?
    ensures var b := MetaBlock(text);
      && text[b.start - 1] == '\n' && b.end + |CLOSE| <= |text| && text[b.end..] == "\n" + text[b.end + 1..]
  {
    var b := MetaBlock(text);
    var p := b.start - |OPEN|;
    assert text[p..p + |OPEN|][|OPEN| - 1] == '\n';
    assert text[b.end] == text[b.end..b.end + |CLOSE|][0] == '\n';
  }

  /** The fixed file's headings, for every file. */
  lemma FixHeadingsIff(text: string, canon: seq<string>, bodies: Bodies, known: seq<string>)
    requires Canonical(canon, bodies)
    ensures Headings(Fix(text, canon, bodies, known)) == canon
       <==> Headings(text) == canon || (Acts(text, canon) && (LastPresent(text, canon) || Whole(text)))
  {
    DropKeepsHeadings(text, known);
    TemplateExact.FixedIff(DropFields(text, known), canon, bodies);
  }

  // ----- the text above the first heading, and the end of a text

  /** The text above the first heading. */
  function Above(text: string): string {
    Join(Cut(Lines(text), false).preamble)
  }

  lemma {:induction false} FindInPrefix(a: string, b: string, needle: string, from: nat)
    requires needle != "" && from <= |a| && Find(a, needle, from) < |a|
    ensures Find(a + b, needle, from) == Find(a, needle, from)
  {
    var i := Find(a, needle, from);
    forall k | from <= k <= i
      ensures At(a + b, needle, k) <==> At(a, needle, k)
    {
      assert (a + b)[k..k + |needle|] == a[k..k + |needle|] by {
        assert i + |needle| <= |a|;
      }
    }
    FindIs(a + b, needle, from, i);
  }

  /** A text with a heading is what stands above it, and the rest. */
  lemma AboveIs(text: string)
    requires Headings(text) != []
    ensures var rest := Join(Flatten(Cut(Lines(text), false).sections));
      && IsPreamble(Above(text)) && text == Above(text) + rest
      && rest != "" && rest[0] == '#' && Lines(rest) == Flatten(Cut(Lines(text), false).sections)
  {
    var lines := Lines(text);
    var d := Cut(lines, false);
    CutIs(lines, false);
    OldPreamble(text);
    JoinLines(text);
    JoinConcat(d.preamble, Flatten(d.sections));
    assert IsSection(d.sections[0], Headings(text)[0]);
    assert lines[|d.preamble|..] == Flatten(d.sections);
    SliceText(text, |d.preamble|, |lines|);
    assert lines[|d.preamble|..|lines|] == Flatten(d.sections);
    RestStarts(d.sections, Headings(text)[0]);
  }

  lemma RestStarts(sections: seq<seq<string>>, name: string)
    requires sections != [] && IsSection(sections[0], name)
    ensures var rest := Join(Flatten(sections)); rest != "" && rest[0] == '#'
  {
    var h := sections[0][0];
    assert h[..3][0] == '#';
    assert Flatten(sections)[0] == h;
  }

  /** The last line stands behind the block, so dropping rows leaves it. */
  lemma DropKeepsEnd(text: string, known: seq<string>)
    ensures EndsInHeading(Lines(DropFields(text, known))) <==> EndsInHeading(Lines(text))
  {
    DropKeepsHeadings(text, known);
    if DropFields(text, known) != text {
      var a, x, y, c := SameBehind(text, known);
      SameEnd(a + x, a + y, c);
    }
  }

  lemma SameBehind(text: string, known: seq<string>) returns (a: string, x: string, y: string, c: string)
    requires DropFields(text, known) != text
    ensures text == (a + x) + c && DropFields(text, known) == (a + y) + c && c != ""
    ensures EndsLine(a + x) && EndsLine(a + y)
  {
    var b := MetaBlock(text);
    DropParts(text, known);
    a, c := text[..b.start], text[b.end + 1..];
    x, y := text[b.start..b.end] + "\n", JoinLinesWith(Kept(BareLines(text[b.start..b.end]), known)) + "\n";
  }

  predicate EndsLine(a: string) {
    a != "" && a[|a| - 1] == '\n'
  }

  lemma SameEnd(p: string, q: string, c: string)
    requires EndsLine(p) && EndsLine(q) && c != "" && InCode(Lines(p + c), false) == InCode(Lines(q + c), false)
    ensures EndsInHeading(Lines(p + c)) <==> EndsInHeading(Lines(q + c))
  {
    LastLineBehind(p, c);
    LastLineBehind(q, c);
  }

  lemma LastLineBehind(a: string, c: string)
    requires EndsLine(a) && c != ""
    ensures Lines(c) != [] && Lines(a + c) != [] && Lines(a + c)[|Lines(a + c)| - 1] == Lines(c)[|Lines(c)| - 1]
  {
    LinesConcat(a, c);
  }
}
