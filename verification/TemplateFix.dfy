/** Filling in a roadmap file's missing sections (`scripts/fix_roadmap_drift.py`), against the heading
    check of `scripts/check_roadmap_format.py`. */
module TemplateFix {
  import opened TextLines
  import opened Template

  // ----- a file as preamble and sections

  datatype Document = Document(preamble: seq<string>, sections: seq<seq<string>>)

  /** Each heading outside code starts a section that runs to the next one. */
  function Cut(lines: seq<string>, inCode: bool): Document {
    if lines == [] then Document([], [])
    else
      var rest := Cut(lines[1..], if IsFence(lines[0]) then !inCode else inCode);
      if !IsFence(lines[0]) && !inCode && IsHeading(lines[0]) then
        Document([], [[lines[0]] + rest.preamble] + rest.sections)
      else Document([lines[0]] + rest.preamble, rest.sections)
  }

  function Flatten(sections: seq<seq<string>>): seq<string> {
    if sections == [] then [] else sections[0] + Flatten(sections[1..])
  }

  /** A heading line named `name`, then no other heading. */
  predicate IsSection(s: seq<string>, name: string) {
    s != [] && !IsFence(s[0]) && IsHeading(s[0]) && NameOf(s[0]) == name && Names(s[1..], false) == []
  }

  ghost predicate AreSections(sections: seq<seq<string>>, names: seq<string>) {
    && |sections| == |names|
    && (forall k :: 0 <= k < |sections| ==> IsSection(sections[k], names[k]))
    && (forall k :: 0 <= k < |sections| - 1 ==> !InCode(sections[k], false))
  }

  ghost predicate IsCut(lines: seq<string>, inCode: bool) {
    var d := Cut(lines, inCode);
    && lines == d.preamble + Flatten(d.sections)
    && Names(d.preamble, inCode) == []
    && (d.sections != [] ==> !InCode(d.preamble, inCode))
    && AreSections(d.sections, Names(lines, inCode))
  }

  lemma {:induction false} CutIs(lines: seq<string>, inCode: bool)
    ensures var d := Cut(lines, inCode);
      && lines == d.preamble + Flatten(d.sections)
      && Names(d.preamble, inCode) == []
      && (d.sections != [] ==> !InCode(d.preamble, inCode))
      && AreSections(d.sections, Names(lines, inCode))
  {
    CutHolds(lines, inCode);
  }

  lemma {:induction false} CutHolds(lines: seq<string>, inCode: bool)
    ensures IsCut(lines, inCode)
  {
    if lines != [] {
      CutHolds(lines[1..], if IsFence(lines[0]) then !inCode else inCode);
      if !IsFence(lines[0]) && !inCode && IsHeading(lines[0]) {
        CutAtHeading(lines);
      } else {
        CutBefore(lines, inCode);
      }
    }
  }

  lemma CutBefore(lines: seq<string>, inCode: bool)
    requires lines != [] && !(!IsFence(lines[0]) && !inCode && IsHeading(lines[0]))
    requires IsCut(lines[1..], if IsFence(lines[0]) then !inCode else inCode)
    ensures IsCut(lines, inCode)
  {
    var rest := Cut(lines[1..], if IsFence(lines[0]) then !inCode else inCode);
    assert ([lines[0]] + rest.preamble)[1..] == rest.preamble;
    assert lines == [lines[0]] + lines[1..];
  }

  lemma CutAtHeading(lines: seq<string>)
    requires lines != [] && !IsFence(lines[0]) && IsHeading(lines[0]) && IsCut(lines[1..], false)
    ensures IsCut(lines, false)
  {
    var rest, names := Cut(lines[1..], false), Names(lines[1..], false);
    var first := [lines[0]] + rest.preamble;
    assert first[1..] == rest.preamble;
    assert Names(lines, false) == [NameOf(lines[0])] + names;
    SectionsCons(first, NameOf(lines[0]), rest.sections, names);
    HeadAndRest(lines[0], rest.preamble, Flatten(rest.sections), lines);
  }

  lemma HeadAndRest<T>(h: T, a: seq<T>, b: seq<T>, all: seq<T>)
    requires all != [] && all[0] == h && all[1..] == a + b
    ensures all == [] + (([h] + a) + b)
  {
    assert all == [h] + all[1..];
  }

  lemma SectionsCons(s: seq<string>, name: string, sections: seq<seq<string>>, names: seq<string>)
    requires IsSection(s, name) && AreSections(sections, names) && (sections != [] ==> !InCode(s, false))
    ensures AreSections([s] + sections, [name] + names)
    ensures Flatten([s] + sections) == s + Flatten(sections)
  {
    assert ([s] + sections)[1..] == sections;
    var all := [s] + sections;
    forall k | 0 <= k < |all|
      ensures IsSection(all[k], ([name] + names)[k])
      ensures k < |all| - 1 ==> !InCode(all[k], false)
    {
      if k > 0 {
        assert all[k] == sections[k - 1] && ([name] + names)[k] == names[k - 1];
      }
    }
  }

  lemma HeadingStarts(h: string, rest: seq<string>)
    requires !IsFence(h) && IsHeading(h)
    ensures Cut([h] + rest, false) == Document([], [[h] + Cut(rest, false).preamble] + Cut(rest, false).sections)
    ensures Names([h] + rest, false) == [NameOf(h)] + Names(rest, false)
    ensures InCode([h] + rest, false) == InCode(rest, false)
  {
    assert ([h] + rest)[1..] == rest;
  }

  lemma CutSection(h: string, rest: seq<string>, tail: seq<string>)
    requires !IsFence(h) && IsHeading(h) && Names(rest, false) == []
    requires tail != [] ==> !InCode(rest, false) && Cut(tail, false).preamble == []
    ensures Cut([h] + (rest + tail), false) == Document([], [[h] + rest] + Cut(tail, false).sections)
    ensures Names([h] + (rest + tail), false) == [NameOf(h)] + Names(tail, false)
  {
    HeadingStarts(h, rest + tail);
    QuietCut(rest, tail, false);
    NamesConcat(rest, tail, false);
    assert rest + [] == rest;
    if tail == [] {
      assert rest + tail == rest;
    }
  }

  lemma {:induction false} CutOfSections(sections: seq<seq<string>>, names: seq<string>)
    requires AreSections(sections, names)
    ensures Cut(Flatten(sections), false) == Document([], sections)
    ensures Names(Flatten(sections), false) == names
  {
    if sections != [] {
      FirstSection(sections, names);
      var h, rest, tail := sections[0][0], sections[0][1..], Flatten(sections[1..]);
      CutOfSections(sections[1..], names[1..]);
      CutSection(h, rest, tail);
      HeadTail(sections[0], tail);
    }
  }

  lemma FirstSection(sections: seq<seq<string>>, names: seq<string>)
    requires AreSections(sections, names) && sections != []
    ensures var s := sections[0];
      && IsSection(s, names[0]) && s == [s[0]] + s[1..]
      && (Flatten(sections[1..]) != [] ==> !InCode(s[1..], false))
    ensures AreSections(sections[1..], names[1..])
    ensures [sections[0]] + sections[1..] == sections && [names[0]] + names[1..] == names
  {
    var s := sections[0];
    assert IsSection(s, names[0]);
    assert InCode(s, false) == InCode(s[1..], false);
    if |sections| > 1 {
      assert !InCode(sections[0], false);
    }
  }

  /** Lines without a heading only lengthen the preamble. */
  lemma {:induction false} QuietCut(quiet: seq<string>, lines: seq<string>, inCode: bool)
    requires Names(quiet, inCode) == []
    ensures var d := Cut(lines, InCode(quiet, inCode));
            Cut(quiet + lines, inCode) == Document(quiet + d.preamble, d.sections)
  {
    if quiet == [] {
      assert quiet + lines == lines;
      assert quiet + Cut(lines, inCode).preamble == Cut(lines, inCode).preamble;
    } else {
      HeadTail(quiet, lines);
      assert (quiet + lines)[1..] == quiet[1..] + lines;
      var code := if IsFence(quiet[0]) then !inCode else inCode;
      QuietCut(quiet[1..], lines, code);
      HeadTail(quiet, Cut(lines, InCode(quiet, inCode)).preamble);
    }
  }

  lemma HeadTail<T>(a: seq<T>, b: seq<T>)
    requires a != []
    ensures a + b == [a[0]] + (a[1..] + b)
  {
  }

  // ----- the same on texts

  predicate IsSectionText(t: string, name: string) {
    StartsWith(t, HEADING) && Headings(t) == [name]
  }

  function LinesOfAll(texts: seq<string>): seq<seq<string>> {
    if texts == [] then [] else [Lines(texts[0])] + LinesOfAll(texts[1..])
  }

  /** Section texts in a row: every one but the last ends its last line and leaves no fence open. */
  ghost predicate AreSectionTexts(texts: seq<string>, names: seq<string>) {
    && |texts| == |names|
    && (forall k :: 0 <= k < |texts| ==> IsSectionText(texts[k], names[k]))
    && (forall k :: 0 <= k < |texts| - 1 ==> Closed(texts[k]) && !InCode(Lines(texts[k]), false))
  }

  /** What may stand above the sections. */
  predicate IsPreamble(t: string) {
    Closed(t) && Headings(t) == [] && !InCode(Lines(t), false)
  }

  lemma SectionLines(t: string, name: string)
    requires IsSectionText(t, name)
    ensures IsSection(Lines(t), name)
  {
    LineAtLeast(t, 3);
    var l := Lines(t)[0];
    assert l == t[..LineEnd(t)];
    assert l[..3] == t[..3];
    assert t[..3][0] == '#';
    assert Names(Lines(t), false)[0] == NameOf(l);
  }

  /** A text whose first characters are no breaks has them on its first line. */
  lemma {:induction false} LineAtLeast(t: string, n: nat)
    requires n <= |t| && forall i :: 0 <= i < n ==> !IsBreak(t[i])
    ensures t != "" ==> LineEnd(t) >= n
  {
    if n > 0 {
      LineAtLeast(t[1..], n - 1);
    }
  }

  lemma {:induction false} LinesOfTexts(texts: seq<string>, names: seq<string>)
    requires AreSectionTexts(texts, names)
    ensures Lines(Join(texts)) == Flatten(LinesOfAll(texts))
    ensures AreSections(LinesOfAll(texts), names)
    ensures texts != [] ==> Join(texts) != "" && Join(texts)[0] == '#'
  {
    if texts != [] {
      SectionLines(texts[0], names[0]);
      LinesOfTexts(texts[1..], names[1..]);
      assert texts[0][..3][0] == '#';
      if |texts| == 1 {
        assert texts[0] + "" == texts[0];
        assert Lines(texts[0]) + [] == Lines(texts[0]);
      } else {
        LinesConcat(texts[0], Join(texts[1..]));
      }
      var all := LinesOfAll(texts);
      forall k | 0 <= k < |all|
        ensures IsSection(all[k], names[k])
        ensures k < |all| - 1 ==> !InCode(all[k], false)
      {
        if k > 0 {
          assert all[k] == LinesOfAll(texts[1..])[k - 1];
        }
      }
    }
  }

  /** A preamble and section texts are cut where they were joined. */
  lemma CutOfTexts(preamble: string, texts: seq<string>, names: seq<string>)
    requires IsPreamble(preamble) && AreSectionTexts(texts, names)
    ensures Cut(Lines(preamble + Join(texts)), false) == Document(Lines(preamble), LinesOfAll(texts))
    ensures Headings(preamble + Join(texts)) == names
  {
    LinesOfTexts(texts, names);
    LinesConcat(preamble, Join(texts));
    CutOfSections(LinesOfAll(texts), names);
    QuietCut(Lines(preamble), Flatten(LinesOfAll(texts)), false);
    NamesConcat(Lines(preamble), Flatten(LinesOfAll(texts)), false);
    assert Lines(preamble) + [] == Lines(preamble);
  }
}
