/** A row that a missing section is put into (`scripts/fix_roadmap_drift.py` against `scripts/check_roadmap_format.py`). */
module TemplateTorn {
  import opened TextLines
  import opened Template
  import opened TemplateFix
  import opened TemplateRebuild
  import opened TemplateComplete
  import opened TemplateFields
  import opened TemplateFixer
  import opened TemplateRows
  import opened TemplateFixed

  const TORN_HEAD := "| T | a\U{2028}"
  const TORN_HEADING := "## A\U{2028}"
  const TORN_TAIL := "| c |"

  /** A row that runs over a heading, which only the checker sees: dropping rows leaves it, and the missing section tears it. */
  lemma TornRow(bodies: Bodies)
    requires Canonical(["N", "A"], bodies) && Bland(["N", "A"], bodies)
    ensures var text, known := OPEN + (TORN_HEAD + (TORN_HEADING + TORN_TAIL)) + CLOSE, ["Status"];
      Flagged(text, known) && DropFields(text, known) == text && !Flagged(Fix(text, ["N", "A"], bodies, known), known)
  {
    TornAround();
    TornHeadingLine();
    TornNoneSeen(["Status"]);
    TornIsUnknown();
    TornGoes(TORN_HEAD, TORN_HEADING, TORN_TAIL, ["N", "A"], bodies, ["Status"]);
  }

  /** A row in three parts, which begins above a heading line and ends behind it. */
  ghost predicate IsTorn(head: string, heading: string, tail: string, name: string, known: seq<string>) {
    && Around(head, tail) && OwnLine(heading, name)
    && Unknown(head + (heading + tail), known) && NoneSeen(head, heading, tail, known)
  }

  predicate Around(head: string, tail: string) {
    Unbroken(head) && Unbroken(tail) && head != "" && IsBreak(head[|head| - 1]) && tail != "" && tail[0] == '|'
  }

  predicate OwnLine(heading: string, name: string) {
    && heading != "" && IsBreak(heading[|heading| - 1]) && '\n' !in heading
    && Lines(heading) == [heading] && IsHeading(heading) && NameOf(heading) == name
  }

  ghost predicate NoneSeen(head: string, heading: string, tail: string, known: seq<string>) {
    && !SomeUnknown(BareLines(head), known) && !SomeUnknown(BareLines(heading), known)
    && !SomeUnknown(BareLines(tail), known)
  }

  predicate Unbroken(s: string) {
    '#' !in s && '`' !in s && '\n' !in s
  }

  lemma TornGoes(head: string, heading: string, tail: string, canon: seq<string>, bodies: Bodies, known: seq<string>)
    requires |canon| == 2 && Canonical(canon, bodies) && Bland(canon, bodies) && IsTorn(head, heading, tail, canon[1], known)
    ensures var text := OPEN + (head + (heading + tail)) + CLOSE;
      Flagged(text, known) && DropFields(text, known) == text && !Flagged(Fix(text, canon, bodies, known), known)
  {
    var row := head + (heading + tail);
    var text := OPEN + row + CLOSE;
    BlockIs(row);
    BetweenMarks(row);
    OneRow(row, known);
    TornIsUnseen(head, heading, tail, canon[1], known);
    DropLeavesNone(text, known);
    FixedFieldsIff(text, canon, bodies, known);
    TornCut(head, heading, tail, canon[1]);
    FirstLacks(text, canon);
    forall i, j | RowAt(text, known, i, j)
      ensures !Stays(text, canon, i, j)
    {
      TornLine(row, i, j);
      assert i < |Above(text)| + 0 < j;
    }
  }

  /** Between the marks of a one-line block there is one line. */
  lemma TornLine(row: string, i: int, j: int)
    requires '\n' !in row && |OPEN| <= i <= j <= |OPEN| + |row| && LineAt(OPEN + row + CLOSE, i, j)
    ensures i == |OPEN| && j == |OPEN| + |row|
  {
    var t := OPEN + row + CLOSE;
    assert forall k :: |OPEN| <= k < |OPEN| + |row| ==> t[k] == row[k - |OPEN|];
    assert t[i - 1] == '\n' && t[j] == '\n';
  }

  lemma OneRow(row: string, known: seq<string>)
    requires '\n' !in row && Unknown(row, known)
    ensures SomeUnknown(PatternLines(row), known)
  {
    NewlineAt(row, Find(row, "\n", 0));
    assert PatternLines(row) == [row];
    assert row in [row];
  }

  lemma TornIsUnseen(head: string, heading: string, tail: string, name: string, known: seq<string>)
    requires Around(head, tail) && OwnLine(heading, name) && NoneSeen(head, heading, tail, known)
    ensures !SomeUnknown(BareLines(head + (heading + tail)), known)
  {
    HeadingIsNoFence(heading);
    BareConcat(head, heading + tail, known);
    LinesConcat(heading, tail);
    BareAllConcat(Lines(heading), Lines(tail));
  }

  lemma HeadingIsNoFence(l: string)
    requires IsHeading(l)
    ensures l[0] == '#' && !IsFence(l)
  {
    assert l[0] == l[..3][0] == '#';
    assert FENCE[0] == '`';
  }

  lemma TextIsPlain(s: string)
    requires '#' !in s && '`' !in s
    ensures Headings(s) == [] && !InCode(Lines(s), false)
  {
    LinesWithin(s, '#');
    LinesWithin(s, '`');
    forall l | l in Lines(s)
      ensures !IsFence(l) && !IsHeading(l)
    {
      FirstOfKind(l);
    }
    PlainIsQuiet(Lines(s), false);
  }

  lemma FirstOfKind(l: string)
    ensures IsFence(l) ==> '`' in l
    ensures IsHeading(l) ==> '#' in l
  {
    if IsFence(l) {
      assert l[0] == l[..3][0] == '`';
    }
    if IsHeading(l) {
      assert l[0] == l[..3][0] == '#';
    }
  }

  /** Above the heading stand the opening mark and the row's beginning. */
  lemma TornCut(head: string, heading: string, tail: string, name: string)
    requires Around(head, tail) && OwnLine(heading, name)
    ensures var text := OPEN + (head + (heading + tail)) + CLOSE;
      Headings(text) == [name] && Above(text) == OPEN + head
  {
    MarksPlain();
    Regrouping(OPEN, head, heading, tail, CLOSE);
    CutAtLine(OPEN + head, heading, tail + CLOSE, name);
  }

  lemma MarksPlain()
    ensures '#' !in OPEN && '`' !in OPEN && '#' !in CLOSE && '`' !in CLOSE
  {
  }

  lemma Regrouping(a: string, b: string, c: string, d: string, e: string)
    ensures a + (b + (c + d)) + e == (a + b) + (c + (d + e))
  {
  }

  lemma CutAtLine(above: string, heading: string, below: string, name: string)
    requires '#' !in above && '`' !in above && above != "" && IsBreak(above[|above| - 1])
    requires '#' !in below && '`' !in below && below != "" && below[0] == '|' && OwnLine(heading, name)
    ensures Headings(above + (heading + below)) == [name] && Above(above + (heading + below)) == above
  {
    TextIsPlain(above);
    TextIsPlain(below);
    TornHeading(heading, below, name);
    var texts, names := [heading + below], [name];
    assert AreSectionTexts(texts, names);
    assert Join(texts) == heading + below;
    CutOfTexts(above, texts, names);
    JoinLines(above);
  }

  lemma TornHeading(heading: string, below: string, name: string)
    requires OwnLine(heading, name) && Headings(below) == [] && below != "" && below[0] == '|'
    ensures IsSectionText(heading + below, name)
  {
    HeadingIsNoFence(heading);
    LinesConcat(heading, below);
    NamesConcat([heading], Lines(below), false);
    OneName(heading);
    StartKept(heading, below, HEADING);
  }

  lemma OneName(heading: string)
    requires IsHeading(heading) && !IsFence(heading)
    ensures Names([heading], false) == [NameOf(heading)] && !InCode([heading], false)
  {
  }

  lemma StartKept(s: string, t: string, start: string)
    requires StartsWith(s, start)
    ensures StartsWith(s + t, start)
  {
    assert (s + t)[..|start|] == s[..|start|];
  }

  lemma FirstLacks(text: string, canon: seq<string>)
    requires |canon| == 2 && Distinct(canon) && Headings(text) == [canon[1]]
    ensures Acts(text, canon) && 0 in Lacking(text, canon)
  {
    CutIs(Lines(text), false);
    assert canon[1..] == [canon[1]];
    assert canon[0] in canon && canon[0] !in Headings(text);
    assert IsSubsequence(Headings(text)[1..], canon[1..][1..]);
  }

  // ----- the parts of the example

  lemma TornAround()
    ensures Around(TORN_HEAD, TORN_TAIL)
  {
    assert TORN_HEAD[|TORN_HEAD| - 1] == '\U{2028}';
  }

  lemma OneBare(l: string, c: char)
    requires OneLine(l) && IsBreak(c) && c != '\n' && c != '\r'
    ensures Lines(l + [c]) == [l + [c]] && BareLines(l + [c]) == [l]
  {
    LineWith(l, c);
    LinesCons(l + [c], "");
    assert (l + [c]) + "" == l + [c];
    CarriageEnd(l + [c]);
    assert Bare(l + [c]) == l;
    assert BareAll([l + [c]]) == [l];
  }

  lemma TornHeadingLine()
    ensures OwnLine(TORN_HEADING, "A")
  {
    var b := "## A";
    assert TORN_HEADING == b + ['\U{2028}'];
    OneBare(b, '\U{2028}');
    HeadingIsA();
  }

  lemma TornNoneSeen(known: seq<string>)
    ensures NoneSeen(TORN_HEAD, TORN_HEADING, TORN_TAIL, known)
  {
    HeadUnseen(known);
    HeadingUnseen(known);
    TailUnseen(known);
  }

  lemma HeadUnseen(known: seq<string>)
    ensures !SomeUnknown(BareLines(TORN_HEAD), known)
  {
    var a := "| T | a";
    assert TORN_HEAD == a + ['\U{2028}'];
    NoRow(a);
    OneUnseen(a, '\U{2028}', known);
  }

  lemma HeadingUnseen(known: seq<string>)
    ensures !SomeUnknown(BareLines(TORN_HEADING), known)
  {
    var b := "## A";
    assert TORN_HEADING == b + ['\U{2028}'];
    HeadingIsNoRow(b, known);
    OneUnseen(b, '\U{2028}', known);
  }

  lemma TailUnseen(known: seq<string>)
    ensures !SomeUnknown(BareLines(TORN_TAIL), known)
  {
    TailIsNoRow();
    LineUnseen(TORN_TAIL, known);
  }

  lemma LineUnseen(l: string, known: seq<string>)
    requires OneLine(l) && !Unknown(l, known)
    ensures !SomeUnknown(BareLines(l), known)
  {
    OneBareLine(l);
  }

  lemma OneUnseen(l: string, c: char, known: seq<string>)
    requires OneLine(l) && IsBreak(c) && c != '\n' && c != '\r' && !Unknown(l, known)
    ensures !SomeUnknown(BareLines(l + [c]), known)
  {
    OneBare(l, c);
  }

  /** `| c |` has no value. */
  lemma TailIsNoRow()
    ensures RowKey(TORN_TAIL) == NotARow
  {
    assert StripRight(TORN_TAIL) == TORN_TAIL;
  }

  lemma HeadingIsA()
    ensures IsHeading(TORN_HEADING) && NameOf(TORN_HEADING) == "A"
  {
    assert TORN_HEADING[..3] == HEADING && TORN_HEADING[3..] == "A" + ['\U{2028}'];
    StripSpace("A", '\U{2028}');
    assert StripLeft("A") == "A" && StripRight("A") == "A";
  }

  lemma TornIsUnknown()
    ensures Unknown(TORN_HEAD + (TORN_HEADING + TORN_TAIL), ["Status"])
  {
    var rest := "a\U{2028}" + (TORN_HEADING + TORN_TAIL);
    assert TORN_HEAD + (TORN_HEADING + TORN_TAIL) == "| T | " + rest;
    assert rest[|rest| - 2] == TORN_TAIL[3] && rest[|rest| - 1] == TORN_TAIL[4];
    KeyIsT(rest, ["Status"]);
  }

  /** A key of one letter. */
  lemma KeyIsT(rest: string, known: seq<string>)
    requires |rest| > 2 && rest[|rest| - 2] == ' ' && rest[|rest| - 1] == '|' && "T" !in known
    ensures Unknown("| T | " + rest, known)
  {
    var l := "| T | " + rest;
    assert StripRight(l) == l;
    assert l[|l| - 2..] == " |" && l[..2] == "| ";
    assert l[3..6] == " | ";
    FindIs(l, " | ", 3, 3);
    assert l[2..3] == "T";
    assert StripLeft("T") == "T" && StripRight("T") == "T";
  }
}
