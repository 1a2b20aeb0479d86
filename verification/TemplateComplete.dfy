/** Exactly when the rebuilt file has the canonical headings, and what it keeps of the old one
    (`scripts/fix_roadmap_drift.py` against `scripts/check_roadmap_format.py`). */
module TemplateComplete {
  import opened TextLines
  import opened Template
  import opened TemplateFix
  import opened TemplateRebuild

  ghost predicate Distinct(names: seq<string>) {
    forall i, j :: 0 <= i < j < |names| ==> names[i] != names[j]
  }

  /** What the template's constants are like: distinct one-line names, bodies without code or headings. */
  ghost predicate Canonical(canon: seq<string>, bodies: Bodies) {
    && Distinct(canon)
    && forall n :: n in canon ==> n in bodies && OneLine(n) && Strip(n) == n && Plain(Lines(bodies[n]))
  }

  /** The text ends its last line and leaves no fence open. */
  predicate Whole(t: string) {
    Closed(t) && !InCode(Lines(t), false)
  }

  // ----- a new section

  /** A newline after plain text leaves it plain. */
  lemma {:induction false} PlainNewline(s: string)
    requires Plain(Lines(s))
    ensures Plain(Lines(s + "\n"))
    decreases |s|
  {
    if s == "" {
      BlankLine(false);
    } else {
      var n := LineEnd(s);
      var head, tail := s[..n], s[n..];
      assert s + "\n" == head + (tail + "\n");
      assert Lines(s)[0] == head && Lines(s)[1..] == Lines(tail);
      LineEndIs(s);
      if tail != "" || (Terminated(head) && head[|head| - 1] != '\r') {
        assert tail != "" ==> (tail + "\n")[0] == tail[0];
        LinesCons(head, tail + "\n");
        PlainNewline(tail);
      } else {
        assert head == s;
        LastLineNewline(s);
        NewlineKeepsKind(s);
      }
    }
  }

  function Seed(body: string): string {
    "\n" + body + "\n\n"
  }

  lemma SeedIsPlain(body: string)
    requires Plain(Lines(body))
    ensures Plain(Lines(Seed(body))) && Closed(Seed(body))
  {
    PlainNewline(body);
    PlainNewline(body + "\n");
    var rest := (body + "\n") + "\n";
    assert Seed(body) == "\n" + rest;
    LinesConcat("\n", rest);
    BlankLine(false);
  }

  lemma HeadingLine(name: string)
    requires OneLine(name) && Strip(name) == name
    ensures var h := HEADING + name + "\n"; IsLine(h) && !IsFence(h) && IsHeading(h) && NameOf(h) == name
  {
    var h := HEADING + name + "\n";
    LineOf(HEADING + name);
    assert h[..3] == HEADING && h[3..] == name + "\n";
    assert h[..3][0] == '#';
    StripSpace(name, '\n');
  }

  lemma NewSectionLines(name: string, body: string)
    requires OneLine(name) && Strip(name) == name && Plain(Lines(body))
    ensures var h := HEADING + name + "\n";
      && NewSection(name, body) == h + Seed(body)
      && Lines(NewSection(name, body)) == [h] + Lines(Seed(body))
  {
    var h := HEADING + name + "\n";
    HeadingLine(name);
    SeedIsPlain(body);
    assert NewSection(name, body) == h + Seed(body);
    LinesCons(h, Seed(body));
  }

  lemma NewSectionIs(name: string, body: string)
    requires OneLine(name) && Strip(name) == name && Plain(Lines(body))
    ensures IsSectionText(NewSection(name, body), name) && Whole(NewSection(name, body))
    ensures Names(Lines(NewSection(name, body)), true) == [] && InCode(Lines(NewSection(name, body)), true)
  {
    var h := HEADING + name + "\n";
    NewSectionLines(name, body);
    HeadingLine(name);
    SeedIsPlain(body);
    PlainIsQuiet(Lines(Seed(body)), false);
    NamesConcat([h], Lines(Seed(body)), false);
    NoHeadingsInCode([h] + Lines(Seed(body)));
    assert NewSection(name, body)[..3] == HEADING;
  }

  // ----- an old section

  lemma {:induction false} LastSectionCode(lines: seq<string>, inCode: bool)
    ensures var s := Cut(lines, inCode).sections;
      s != [] ==> InCode(lines, inCode) == InCode(s[|s| - 1], false)
    ensures Cut(lines, inCode).sections == [] ==> InCode(lines, inCode) == InCode(Cut(lines, inCode).preamble, inCode)
  {
    if lines != [] {
      var code := if IsFence(lines[0]) then !inCode else inCode;
      LastSectionCode(lines[1..], code);
      var rest := Cut(lines[1..], code);
      assert ([lines[0]] + rest.preamble)[1..] == rest.preamble;
    }
  }

  lemma {:induction false} JoinEnd(lines: seq<string>)
    requires lines != [] && forall i :: 0 <= i < |lines| ==> lines[i] != ""
    ensures var l := lines[|lines| - 1]; var t := Join(lines); t != "" && t[|t| - 1] == l[|l| - 1]
  {
    if |lines| > 1 {
      JoinEnd(lines[1..]);
    }
  }

  /** Lines taken from a text, put together again. */
  lemma SliceText(text: string, a: nat, b: nat)
    requires a <= b <= |Lines(text)|
    ensures Lines(Join(Lines(text)[a..b])) == Lines(text)[a..b]
    ensures b < |Lines(text)| ==> Closed(Join(Lines(text)[a..b]))
    ensures a < b == |Lines(text)| ==> (Closed(Join(Lines(text)[a..b])) <==> Closed(text))
  {
    LinesAreProper(text);
    ProperSlice(Lines(text), a, b);
    LinesOfJoin(Lines(text)[a..b]);
    if a < b {
      SliceEnd(Lines(text), a, b);
    }
  }

  lemma SliceEnd(lines: seq<string>, a: nat, b: nat)
    requires Proper(lines) && a < b <= |lines|
    ensures Closed(Join(lines[a..b])) <==> Terminated(lines[b - 1])
    ensures b < |lines| ==> Terminated(lines[b - 1])
  {
    ProperSlice(lines, a, b);
    JoinEnd(lines[a..b]);
    assert lines[a..b][b - a - 1] == lines[b - 1];
  }

  lemma ProperSlice(lines: seq<string>, a: nat, b: nat)
    requires Proper(lines) && a <= b <= |lines|
    ensures Proper(lines[a..b]) && forall i :: 0 <= i < b - a ==> lines[a..b][i] != ""
    ensures 0 < b < |lines| ==> Terminated(lines[b - 1])
  {
    var part := lines[a..b];
    forall i | 0 <= i < |part|
      ensures IsLine(part[i])
    {
      assert part[i] == lines[a + i];
    }
    forall i | 0 <= i < |part| - 1
      ensures Terminated(part[i]) && !Merges(part[i], part[i + 1])
    {
      assert part[i] == lines[a + i] && part[i + 1] == lines[a + i + 1];
    }
  }

  lemma OldSection(text: string, k: nat)
    requires k < |Cut(Lines(text), false).sections|
    ensures var s := Cut(Lines(text), false).sections;
      && |Headings(text)| == |s|
      && IsSectionText(Join(s[k]), Headings(text)[k]) && Lines(Join(s[k])) == s[k]
      && (k < |s| - 1 || Whole(text) ==> Whole(Join(s[k])))
      && (k == |s| - 1 && Whole(Join(s[k])) ==> Whole(text))
      && (k == |s| - 1 ==> (Closed(Join(s[k])) <==> Closed(text)))
  {
    var s := Cut(Lines(text), false).sections;
    SectionText(text, k);
    if k < |s| - 1 {
      InnerSection(text, k);
    } else {
      LastSectionCode(Lines(text), false);
    }
  }

  lemma SectionText(text: string, k: nat)
    requires k < |Cut(Lines(text), false).sections|
    ensures var s := Cut(Lines(text), false).sections;
      && |Headings(text)| == |s|
      && IsSectionText(Join(s[k]), Headings(text)[k]) && Lines(Join(s[k])) == s[k]
      && (k == |s| - 1 ==> (Closed(Join(s[k])) <==> Closed(text)))
  {
    var lines := Lines(text);
    var s := Cut(lines, false).sections;
    CutIs(lines, false);
    assert IsSection(s[k], Headings(text)[k]);
    SectionStart(s[k], Headings(text)[k]);
    PositionsAreStarts(lines, 0, false);
    SpanIsSection(lines, k);
    var ps := Positions(lines, 0, false);
    SliceText(text, ps[k].at, EndOf(ps, k, |lines|));
  }

  lemma InnerSection(text: string, k: nat)
    requires k + 1 < |Cut(Lines(text), false).sections|
    ensures Whole(Join(Cut(Lines(text), false).sections[k]))
  {
    var lines := Lines(text);
    var s := Cut(lines, false).sections;
    CutIs(lines, false);
    assert IsSection(s[k], Headings(text)[k]) && IsSection(s[k + 1], Headings(text)[k + 1]);
    assert !InCode(s[k], false);
    PositionsAreStarts(lines, 0, false);
    SpanIsSection(lines, k);
    SpanIsSection(lines, k + 1);
    var ps := Positions(lines, 0, false);
    SliceText(text, ps[k].at, ps[k + 1].at);
  }

  lemma SectionStart(s: seq<string>, name: string)
    requires IsSection(s, name)
    ensures StartsWith(Join(s), HEADING) && Names(s, false) == [name]
  {
    assert Join(s)[..3] == s[0][..3];
  }

  lemma OldPreamble(text: string)
    requires Cut(Lines(text), false).sections != []
    ensures var pre := Cut(Lines(text), false).preamble; IsPreamble(Join(pre)) && Lines(Join(pre)) == pre
  {
    var lines := Lines(text);
    CutIs(lines, false);
    PositionsAreStarts(lines, 0, false);
    SpanIsSection(lines, 0);
    assert IsSection(Cut(lines, false).sections[0], Headings(text)[0]);
    SliceText(text, 0, Positions(lines, 0, false)[0].at);
  }

  // ----- the pieces of a rebuild

  function Pieces(text: string, canon: seq<string>, bodies: Bodies): (ts: seq<string>)
    requires forall n :: n in canon ==> n in bodies
  {
    CutIs(Lines(text), false);
    PieceTexts(canon, Headings(text), Cut(Lines(text), false).sections, bodies)
  }

  lemma {:induction false} PieceAt(canon: seq<string>, names: seq<string>, sections: seq<seq<string>>, bodies: Bodies)
    requires |names| == |sections| && forall n :: n in canon ==> n in bodies
    ensures var ts := PieceTexts(canon, names, sections, bodies);
      |ts| == |canon| && forall i :: 0 <= i < |ts| ==> ts[i] == PieceText(canon[i], names, sections, bodies)
  {
    if canon != [] {
      PieceAt(canon[1..], names, sections, bodies);
    }
  }

  /** A piece is its section; it can be followed unless it is the last one of an unfinished file. */
  lemma PieceIsSection(text: string, name: string, bodies: Bodies)
    requires name in bodies && OneLine(name) && Strip(name) == name && Plain(Lines(bodies[name]))
    requires |Headings(text)| == |Cut(Lines(text), false).sections| > 0
    ensures var p := PieceText(name, Headings(text), Cut(Lines(text), false).sections, bodies);
      IsSectionText(p, name) && (name != Headings(text)[|Headings(text)| - 1] || Whole(text) ==> Whole(p))
  {
    if name in Headings(text) {
      OldSection(text, LastIndexOf(Headings(text), name));
    } else {
      NewSectionIs(name, bodies[name]);
    }
  }

  predicate LastPresent(text: string, canon: seq<string>) {
    Headings(text) != [] && canon != [] && Headings(text)[|Headings(text)| - 1] == canon[|canon| - 1]
  }

  lemma PiecesAreSections(text: string, canon: seq<string>, bodies: Bodies)
    requires Canonical(canon, bodies) && Headings(text) != []
    requires LastPresent(text, canon) || Whole(text)
    ensures AreSectionTexts(Pieces(text, canon, bodies), canon)
  {
    var ts, names := Pieces(text, canon, bodies), Headings(text);
    CutIs(Lines(text), false);
    PieceAt(canon, names, Cut(Lines(text), false).sections, bodies);
    forall k | 0 <= k < |ts|
      ensures IsSectionText(ts[k], canon[k])
      ensures k < |ts| - 1 ==> Closed(ts[k]) && !InCode(Lines(ts[k]), false)
    {
      PieceIsSection(text, canon[k], bodies);
    }
  }

  // ----- the newline at the end

  lemma {:induction false} StripKeepsNames(s: string)
    ensures Names(Lines(StripNewlines(s)), false) == Names(Lines(s), false)
  {
    if s != "" && s[|s| - 1] == '\n' {
      assert s == s[..|s| - 1] + "\n";
      NewlineKeepsNames(s[..|s| - 1], false);
      StripKeepsNames(s[..|s| - 1]);
    }
  }

  lemma {:induction false} StripIsPrefix(s: string, n: nat)
    requires 0 < n <= |s| && s[n - 1] != '\n'
    ensures n <= |StripNewlines(s)| <= |s| && StripNewlines(s) == s[..|StripNewlines(s)|]
  {
    if s[|s| - 1] == '\n' {
      StripIsPrefix(s[..|s| - 1], n);
    }
  }

  lemma {:induction false} StripAfter(a: string, b: string)
    requires StripNewlines(b) != ""
    ensures StripNewlines(a + b) == a + StripNewlines(b)
    decreases |b|
  {
    var ab := a + b;
    assert ab[|ab| - 1] == b[|b| - 1];
    if b[|b| - 1] == '\n' {
      assert ab[..|ab| - 1] == a + b[..|b| - 1];
      StripAfter(a, b[..|b| - 1]);
    }
  }

  /** One newline at the end, as the rebuild leaves it. */
  function Tidy(t: string): string {
    StripNewlines(t) + "\n"
  }

  lemma TidySection(t: string, name: string)
    requires IsSectionText(t, name)
    ensures IsSectionText(Tidy(t), name)
  {
    StripKeepsNames(t);
    NewlineKeepsNames(StripNewlines(t), false);
    assert t[..3][2] == ' ';
    StripIsPrefix(t, 3);
    assert Tidy(t)[..3] == t[..3];
  }

  lemma {:induction false} TidyLast(ts: seq<string>)
    requires ts != [] && forall i :: 0 <= i < |ts| ==> StartsWith(ts[i], HEADING)
    ensures Tidy(Join(ts)) == Join(ts[|ts| - 1 := Tidy(ts[|ts| - 1])])
    ensures StripNewlines(Join(ts)) != ""
  {
    var n := |ts| - 1;
    assert ts[0][..3][2] == ' ';
    if n == 0 {
      assert ts[0] + "" == ts[0];
      assert ts[0 := Tidy(ts[0])] == [Tidy(ts[0])] && Tidy(ts[0]) + "" == Tidy(ts[0]);
      StripIsPrefix(ts[0], 3);
    } else {
      TidyLast(ts[1..]);
      StripAfter(ts[0], Join(ts[1..]));
      var us := ts[n := Tidy(ts[n])];
      assert us[1..] == ts[1..][n - 1 := Tidy(ts[n])];
      assert (ts[0] + StripNewlines(Join(ts[1..]))) + "\n" == ts[0] + Tidy(Join(ts[1..]));
    }
  }

  // ----- the file after the rebuild

  /** The rebuilt file's sections: the old ones and the new, the last one's trailing newlines made one. */
  function Rebuilt(text: string, canon: seq<string>, bodies: Bodies): seq<string>
    requires forall n :: n in canon ==> n in bodies
  {
    var ts := Pieces(text, canon, bodies);
    if ts == [] then [] else ts[|ts| - 1 := Tidy(ts[|ts| - 1])]
  }

  /** Every field is known, and no field comes twice. */
  lemma {:induction false} SubsequenceIn(present: seq<string>, order: seq<string>)
    requires IsSubsequence(present, order)
    ensures forall n :: n in present ==> n in order
    ensures Distinct(order) ==> Distinct(present)
  {
    if present != [] {
      if present[0] == order[0] {
        SubsequenceIn(present[1..], order[1..]);
        assert present == [present[0]] + present[1..] && order == [order[0]] + order[1..];
        if Distinct(order) {
          assert forall i, j :: 0 <= i < j < |order[1..]| ==> order[1..][i] == order[i + 1] && order[1..][j] == order[j + 1];
          assert Distinct(order[1..]) && order[0] !in order[1..];
        }
      } else {
        SubsequenceIn(present, order[1..]);
        assert order == [order[0]] + order[1..];
      }
    }
  }

  lemma TidyTexts(ts: seq<string>, names: seq<string>)
    requires AreSectionTexts(ts, names) && ts != []
    ensures var us := ts[|ts| - 1 := Tidy(ts[|ts| - 1])];
      AreSectionTexts(us, names) && Tidy(Join(ts)) == Join(us)
  {
    var n := |ts| - 1;
    assert IsSectionText(ts[n], names[n]);
    TidySection(ts[n], names[n]);
    forall i | 0 <= i < |ts|
      ensures StartsWith(ts[i], HEADING)
    {
      assert IsSectionText(ts[i], names[i]);
    }
    TidyLast(ts);
  }

  lemma RebuiltAreSections(text: string, canon: seq<string>, bodies: Bodies)
    requires Canonical(canon, bodies) && Acts(text, canon)
    requires LastPresent(text, canon) || Whole(text)
    ensures AreSectionTexts(Rebuilt(text, canon, bodies), canon)
    ensures Rebuild(text, canon, bodies)
         == Join(Cut(Lines(text), false).preamble) + Join(Rebuilt(text, canon, bodies))
  {
    var ts := Pieces(text, canon, bodies);
    SubsequenceIn(Headings(text), canon);
    assert Headings(text)[0] in canon;
    PiecesAreSections(text, canon, bodies);
    TidyTexts(ts, canon);
    RebuildTidies(text, canon, bodies);
  }

  lemma RebuildTidies(text: string, canon: seq<string>, bodies: Bodies)
    requires forall n :: n in canon ==> n in bodies
    requires Acts(text, canon)
    ensures Rebuild(text, canon, bodies)
         == Join(Cut(Lines(text), false).preamble) + Tidy(Join(Pieces(text, canon, bodies)))
  {
    var pre, all := Join(Cut(Lines(text), false).preamble), StripNewlines(Join(Pieces(text, canon, bodies)));
    assert pre + all + "\n" == pre + (all + "\n");
  }

  /** The fixed file has the canonical headings, and above them the old preamble. */
  lemma RebuildCompletes(text: string, canon: seq<string>, bodies: Bodies)
    requires Canonical(canon, bodies) && Acts(text, canon)
    requires LastPresent(text, canon) || Whole(text)
    ensures var r := Rebuild(text, canon, bodies);
      && Headings(r) == canon
      && Cut(Lines(r), false) == Document(Cut(Lines(text), false).preamble, LinesOfAll(Rebuilt(text, canon, bodies)))
  {
    RebuiltAreSections(text, canon, bodies);
    CutIs(Lines(text), false);
    OldPreamble(text);
    CutOfTexts(Join(Cut(Lines(text), false).preamble), Rebuilt(text, canon, bodies), canon);
  }

  lemma {:induction false} TheIndex(names: seq<string>, k: nat)
    requires Distinct(names) && k < |names|
    ensures LastIndexOf(names, names[k]) == k
  {
  }

  /** Each section that was there is there, verbatim but for the trailing newlines of a last one. */
  lemma RebuildKeepsSections(text: string, canon: seq<string>, bodies: Bodies, k: nat) returns (j: nat)
    requires Canonical(canon, bodies) && Acts(text, canon)
    requires LastPresent(text, canon) || Whole(text)
    requires k < |Cut(Lines(text), false).sections|
    ensures var was := Cut(Lines(text), false).sections[k];
      var now := Cut(Lines(Rebuild(text, canon, bodies)), false).sections;
      && |Headings(text)| == |Cut(Lines(text), false).sections| && |now| == |canon|
      && j < |canon| && canon[j] == Headings(text)[k]
      && Join(now[j]) == if j == |canon| - 1 then Tidy(Join(was)) else Join(was)
  {
    CutIs(Lines(text), false);
    SubsequenceIn(Headings(text), canon);
    assert Headings(text)[k] in canon;
    j :| 0 <= j < |canon| && canon[j] == Headings(text)[k];
    RebuiltAt(text, canon, bodies, j, k);
    RebuildCompletes(text, canon, bodies);
    LinesOfAllAt(Rebuilt(text, canon, bodies), j);
  }

  lemma RebuiltAt(text: string, canon: seq<string>, bodies: Bodies, j: nat, k: nat)
    requires forall n :: n in canon ==> n in bodies
    requires |Headings(text)| == |Cut(Lines(text), false).sections| && Distinct(Headings(text))
    requires j < |canon| && k < |Headings(text)| && canon[j] == Headings(text)[k]
    ensures var was, us := Cut(Lines(text), false).sections[k], Rebuilt(text, canon, bodies);
      |us| == |canon| && us[j] == if j == |canon| - 1 then Tidy(Join(was)) else Join(was)
  {
    TheIndex(Headings(text), k);
    PieceAt(canon, Headings(text), Cut(Lines(text), false).sections, bodies);
  }

  lemma {:induction false} LinesOfAllAt(texts: seq<string>, k: nat)
    requires k < |texts|
    ensures |LinesOfAll(texts)| == |texts| && Join(LinesOfAll(texts)[k]) == texts[k]
  {
    if k > 0 {
      LinesOfAllAt(texts[1..], k - 1);
    } else {
      JoinLines(texts[0]);
      if |texts| > 1 {
        LinesOfAllAt(texts[1..], 0);
      }
    }
  }

  /** A second rebuild finds nothing to do. */
  lemma RebuildSettles(text: string, canon: seq<string>, bodies: Bodies)
    requires Canonical(canon, bodies)
    requires LastPresent(text, canon) || Whole(text)
    ensures var r := Rebuild(text, canon, bodies); Rebuild(r, canon, bodies) == r
  {
    if Acts(text, canon) {
      RebuildCompletes(text, canon, bodies);
    }
  }
}
