/** Both fixes in a row against the field check, for every file (`scripts/fix_roadmap_drift.py` against
    `scripts/check_roadmap_format.py`). */
module TemplateFixed {
  import opened TextLines
  import opened Template
  import opened TemplateFix
  import opened TemplateRebuild
  import opened TemplateComplete
  import opened TemplateFields
  import opened TemplateSettles
  import opened TemplateFixer
  import opened TemplateRows
  import TemplateExact

  // ----- where sections are missing

  /** The places of missing sections, counted from the first heading. */
  function Gaps(canon: seq<string>, names: seq<string>, sections: seq<seq<string>>): set<nat>
    requires |names| == |sections|
  {
    if canon == [] then {}
    else if names != [] && names[0] == canon[0] then
      set g | g in Gaps(canon[1..], names[1..], sections[1..]) :: |Join(sections[0])| + g
    else {0} + Gaps(canon[1..], names, sections)
  }

  /** A stretch that runs over one of the places, counted from `at`. */
  predicate Torn(gaps: set<nat>, at: nat, i: int, j: int) {
    exists g :: g in gaps && i < at + g < j
  }

  /** An unknown row that runs over none of the places. */
  ghost predicate RowLeft(text: string, known: seq<string>, gaps: set<nat>, at: nat) {
    exists i, j :: RowAt(text, known, i, j) && !Torn(gaps, at, i, j)
  }

  // ----- one section more

  lemma RowsInsert(a: string, n: string, b: string, known: seq<string>, gaps: set<nat>)
    requires IsNew(n) && IsRest(b)
    ensures RowLeft(a + (n + b), known, gaps, |a| + |n|) <==> RowLeft(a + b, known, {0} + gaps, |a|)
  {
    if RowLeft(a + b, known, {0} + gaps, |a|) {
      var i, j :| RowAt(a + b, known, i, j) && !Torn({0} + gaps, |a|, i, j);
      RowKept(a, n, b, known, gaps, i, j);
    }
    if RowLeft(a + (n + b), known, gaps, |a| + |n|) {
      var i, j :| RowAt(a + (n + b), known, i, j) && !Torn(gaps, |a| + |n|, i, j);
      RowFound(a, n, b, known, gaps, i, j);
    }
  }

  lemma RowKept(a: string, n: string, b: string, known: seq<string>, gaps: set<nat>, i: int, j: int)
    requires IsNew(n) && IsRest(b) && RowAt(a + b, known, i, j) && !Torn({0} + gaps, |a|, i, j)
    ensures RowLeft(a + (n + b), known, gaps, |a| + |n|)
  {
    assert 0 in {0} + gaps;
    assert !(i < |a| + 0 < j);
    RowStays(a, n, b, known, i, j);
    var x, y := Moved(a, n, i), Moved(a, n, j);
    forall g | g in gaps
      ensures !(x < |a| + |n| + g < y)
    {
      assert g in {0} + gaps;
    }
    assert !Torn(gaps, |a| + |n|, x, y);
  }

  lemma RowFound(a: string, n: string, b: string, known: seq<string>, gaps: set<nat>, i: int, j: int)
    requires IsNew(n) && IsRest(b) && RowAt(a + (n + b), known, i, j) && !Torn(gaps, |a| + |n|, i, j)
    ensures RowLeft(a + b, known, {0} + gaps, |a|)
  {
    RowWas(a, n, b, known, i, j);
    var x, y := if j < |a| then i else i - |n|, if j < |a| then j else j - |n|;
    forall g | g in {0} + gaps
      ensures !(x < |a| + g < y)
    {
      if j >= |a| && g in gaps {
        assert !(i < |a| + |n| + g < j);
      }
    }
    assert !Torn({0} + gaps, |a|, x, y);
  }

  // ----- the pieces, one canonical section at a time

  lemma {:induction false} WithoutFirst(canon: seq<string>, names: seq<string>, sections: seq<seq<string>>, bodies: Bodies)
    requires |names| == |sections| && names != [] && Distinct(names) && names[0] !in canon
    requires forall n :: n in canon ==> n in bodies
    ensures PieceTexts(canon, names, sections, bodies) == PieceTexts(canon, names[1..], sections[1..], bodies)
  {
    if canon != [] {
      WithoutFirst(canon[1..], names, sections, bodies);
      PieceOfRest(canon[0], names, sections, bodies);
    }
  }

  lemma PieceOfRest(name: string, names: seq<string>, sections: seq<seq<string>>, bodies: Bodies)
    requires |names| == |sections| && names != [] && Distinct(names) && names[0] != name && name in bodies
    ensures PieceText(name, names, sections, bodies) == PieceText(name, names[1..], sections[1..], bodies)
  {
    assert names == [names[0]] + names[1..];
    if name in names {
      var k := LastIndexOf(names, name);
      assert Distinct(names[1..]) && names[1..][k - 1] == name;
      TheIndex(names[1..], k - 1);
    }
  }

  lemma FirstPresent(canon: seq<string>, names: seq<string>, sections: seq<seq<string>>, bodies: Bodies)
    requires |names| == |sections| && Distinct(canon) && IsSubsequence(names, canon)
    requires names != [] && names[0] == canon[0] && forall n :: n in canon ==> n in bodies
    ensures PieceTexts(canon, names, sections, bodies)
         == [Join(sections[0])] + PieceTexts(canon[1..], names[1..], sections[1..], bodies)
    ensures IsSubsequence(names[1..], canon[1..]) && Distinct(canon[1..])
  {
    SubsequenceIn(names, canon);
    TheIndex(names, 0);
    DistinctRest(canon);
    WithoutFirst(canon[1..], names, sections, bodies);
  }

  lemma DistinctRest(canon: seq<string>)
    requires canon != [] && Distinct(canon)
    ensures Distinct(canon[1..]) && canon[0] !in canon[1..]
  {
    var rest := canon[1..];
    assert forall i :: 0 <= i < |rest| ==> rest[i] == canon[i + 1];
  }

  lemma FirstMissing(canon: seq<string>, names: seq<string>, sections: seq<seq<string>>, bodies: Bodies)
    requires |names| == |sections| && Distinct(canon) && IsSubsequence(names, canon)
    requires canon != [] && (names == [] || names[0] != canon[0]) && forall n :: n in canon ==> n in bodies
    ensures PieceTexts(canon, names, sections, bodies)
         == [NewSection(canon[0], bodies[canon[0]])] + PieceTexts(canon[1..], names, sections, bodies)
    ensures IsSubsequence(names, canon[1..]) && Distinct(canon[1..])
  {
    DistinctRest(canon);
    SubsequenceIn(names, canon[1..]);
  }

  // ----- all sections

  /** No row and no mark can be made of the names and bodies of the template. */
  ghost predicate Bland(canon: seq<string>, bodies: Bodies) {
    forall n :: n in canon ==> n in bodies && IsBland(n, bodies[n])
  }

  predicate IsBland(name: string, body: string) {
    NoMarks(name) && NoMarks(body)
  }

  predicate NoMarks(s: string) {
    '|' !in s && '<' !in s
  }

  lemma BlandIsNew(name: string, body: string)
    requires IsBland(name, body)
    ensures IsNew(NewSection(name, body))
  {
    TemplateExact.NewSectionEnds(name, body);
    assert NoMarks(HEADING) && NoMarks("\n\n");
  }

  /** Section texts behind a text that they cannot join. */
  ghost predicate Runs(a: string, sections: seq<seq<string>>) {
    && (sections != [] ==> Closed(a))
    && forall k :: 0 <= k < |sections| ==> IsText(sections, k)
  }

  predicate IsText(sections: seq<seq<string>>, k: nat)
    requires k < |sections|
  {
    var t := Join(sections[k]);
    t != "" && t[0] == '#' && (k < |sections| - 1 ==> Closed(t))
  }

  lemma RunsRest(a: string, sections: seq<seq<string>>)
    requires Runs(a, sections) && sections != []
    ensures Join(Flatten(sections)) == Join(sections[0]) + Join(Flatten(sections[1..]))
    ensures IsRest(Join(Flatten(sections))) && Runs(a + Join(sections[0]), sections[1..])
  {
    var rest := sections[1..];
    JoinConcat(sections[0], Flatten(rest));
    assert IsText(sections, 0);
    forall k | 0 <= k < |rest|
      ensures IsText(rest, k)
    {
      assert IsText(sections, k + 1);
    }
  }

  lemma RunsFits(a: string, sections: seq<seq<string>>)
    requires Runs(a, sections)
    ensures Fits(a, Join(Flatten(sections)))
  {
    if sections != [] {
      RunsRest(a, sections);
    }
  }

  /** A text before and after the rebuild: the fixer sees as much, and the checker flags what is left. */
  ghost predicate SameRows(was: string, now: string, known: seq<string>, left: bool) {
    (Seen(now, known) <==> Seen(was, known)) && (Flagged(now, known) <==> left)
  }

  lemma NothingTorn(text: string, known: seq<string>, at: nat)
    ensures SameRows(text, text, known, RowLeft(text, known, {}, at))
  {
    FlaggedAt(text, known);
    if i, j :| RowAt(text, known, i, j) {
      assert !Torn({}, at, i, j);
    }
  }

  /** An unknown row that runs over no place of a missing section. */
  ghost predicate LeftBehind(text: string, known: seq<string>, canon: seq<string>, names: seq<string>,
                             sections: seq<seq<string>>, at: nat)
    requires |names| == |sections|
  {
    RowLeft(text, known, Gaps(canon, names, sections), at)
  }

  lemma GapsBehind(canon: seq<string>, names: seq<string>, sections: seq<seq<string>>, text: string, known: seq<string>,
                   at: nat, next: nat)
    requires |names| == |sections| && canon != [] && names != [] && names[0] == canon[0]
    requires next == at + |Join(sections[0])|
    ensures LeftBehind(text, known, canon, names, sections, at)
       <==> LeftBehind(text, known, canon[1..], names[1..], sections[1..], next)
  {
    var gaps, rest, d := Gaps(canon, names, sections), Gaps(canon[1..], names[1..], sections[1..]), |Join(sections[0])|;
    forall i, j
      ensures Torn(gaps, at, i, j) <==> Torn(rest, at + d, i, j)
    {
      TornBehind(gaps, rest, d, at, i, j);
    }
  }

  lemma TornBehind(gaps: set<nat>, rest: set<nat>, d: nat, at: nat, i: int, j: int)
    requires gaps == set g | g in rest :: d + g
    ensures Torn(gaps, at, i, j) <==> Torn(rest, at + d, i, j)
  {
    if Torn(rest, at + d, i, j) {
      var g :| g in rest && i < at + d + g < j;
      assert d + g in gaps && i < at + (d + g) < j;
    }
    if Torn(gaps, at, i, j) {
      var h :| h in gaps && i < at + h < j;
      var g :| g in rest && h == d + g;
      assert i < at + d + g < j;
    }
  }

  lemma {:induction false} Woven(a: string, canon: seq<string>, names: seq<string>, sections: seq<seq<string>>,
                                 bodies: Bodies, known: seq<string>)
    requires |names| == |sections| && Distinct(canon) && IsSubsequence(names, canon) && Bland(canon, bodies)
    requires Runs(a, sections)
    ensures SameRows(a + Join(Flatten(sections)), a + Join(PieceTexts(canon, names, sections, bodies)), known,
                     LeftBehind(a + Join(Flatten(sections)), known, canon, names, sections, |a|))
    decreases |canon|
  {
    if canon == [] {
      NothingTorn(a + "", known, |a|);
    } else if names != [] && names[0] == canon[0] {
      WovenPresent(a, canon, names, sections, bodies, known);
    } else {
      WovenMissing(a, canon, names, sections, bodies, known);
    }
  }

  lemma BlandRest(canon: seq<string>, bodies: Bodies)
    requires Bland(canon, bodies) && canon != []
    ensures Bland(canon[1..], bodies)
  {
  }

  lemma {:induction false} WovenPresent(a: string, canon: seq<string>, names: seq<string>, sections: seq<seq<string>>,
                                        bodies: Bodies, known: seq<string>)
    requires |names| == |sections| && Distinct(canon) && IsSubsequence(names, canon) && Bland(canon, bodies)
    requires Runs(a, sections) && names != [] && names[0] == canon[0]
    ensures SameRows(a + Join(Flatten(sections)), a + Join(PieceTexts(canon, names, sections, bodies)), known,
                     LeftBehind(a + Join(Flatten(sections)), known, canon, names, sections, |a|))
    decreases |canon|, 0
  {
    var first, rest := Join(sections[0]), PieceTexts(canon[1..], names[1..], sections[1..], bodies);
    FirstPresent(canon, names, sections, bodies);
    RunsRest(a, sections);
    BlandRest(canon, bodies);
    Woven(a + first, canon[1..], names[1..], sections[1..], bodies, known);
    JoinCons(first, rest);
    Grouped(a, first, Join(Flatten(sections[1..])));
    Grouped(a, first, Join(rest));
    GapsBehind(canon, names, sections, a + Join(Flatten(sections)), known, |a|, |a + first|);
  }

  lemma JoinCons(first: string, rest: seq<string>)
    ensures Join([first] + rest) == first + Join(rest)
  {
  }

  lemma {:induction false} WovenMissing(a: string, canon: seq<string>, names: seq<string>, sections: seq<seq<string>>,
                                        bodies: Bodies, known: seq<string>)
    requires |names| == |sections| && Distinct(canon) && IsSubsequence(names, canon) && Bland(canon, bodies)
    requires Runs(a, sections) && canon != [] && (names == [] || names[0] != canon[0])
    ensures SameRows(a + Join(Flatten(sections)), a + Join(PieceTexts(canon, names, sections, bodies)), known,
                     LeftBehind(a + Join(Flatten(sections)), known, canon, names, sections, |a|))
    decreases |canon|, 0
  {
    var n, rest := NewSection(canon[0], bodies[canon[0]]), PieceTexts(canon[1..], names, sections, bodies);
    var was := Join(Flatten(sections));
    FirstMissing(canon, names, sections, bodies);
    BlandIsNew(canon[0], bodies[canon[0]]);
    Woven(a + n, canon[1..], names, sections, bodies, known);
    RunsFits(a, sections);
    Grouped(a, n, was);
    Grouped(a, n, Join(rest));
    SeenMoved(a, n, was, known);
    RowsInsert(a, n, was, known, Gaps(canon[1..], names, sections));
  }

  lemma Grouped<T>(a: seq<T>, b: seq<T>, c: seq<T>)
    ensures (a + b) + c == a + (b + c) && |a + b| == |a| + |b|
  {
  }

  // ----- the newlines at the end

  ghost predicate AllNewlines(w: string) {
    forall c :: c in w ==> c == '\n'
  }

  lemma BlockKept(s: string, w: string, o: string, c: string)
    requires o != "" && c != "" && BlockOf(s, o, c).Block?
    ensures BlockOf(s + w, o, c) == BlockOf(s, o, c)
  {
    FindInPrefix(s, w, o, 0);
    FindInPrefix(s, w, c, BlockOf(s, o, c).start);
  }

  lemma NotInNewlines(s: string, w: string, c: string, q: nat)
    requires c != "" && c[|c| - 1] != '\n' && AllNewlines(w)
    ensures At(s + w, c, q) ==> q + |c| <= |s|
  {
    var t, e := s + w, q + |c| - 1;
    if |s| <= e < |t| {
      assert t[e] == w[e - |s|] && w[e - |s|] in w;
      assert t[q..q + |c|][|c| - 1] == t[e];
    }
  }

  lemma BlockWas(s: string, w: string, o: string, c: string)
    requires o != "" && c != "" && c[|c| - 1] != '\n' && AllNewlines(w) && BlockOf(s + w, o, c).Block?
    ensures BlockOf(s, o, c) == BlockOf(s + w, o, c)
  {
    var t, p := s + w, Find(s + w, o, 0);
    var q := BlockOf(t, o, c).end;
    NotInNewlines(s, w, c, q);
    FoundAlike(t, s, o, p);
    forall k | p + |o| <= k <= q
      ensures At(s, c, k) <==> At(t, c, k)
    {
      AtAlike(s, t, c, k);
    }
    FoundFirst(s, c, p + |o|, q);
  }

  lemma SameBlock(s: string, w: string, o: string, c: string)
    requires o != "" && c != "" && c[|c| - 1] != '\n' && AllNewlines(w)
    ensures BlockOf(s + w, o, c) == BlockOf(s, o, c)
  {
    if BlockOf(s + w, o, c).Block? {
      BlockWas(s, w, o, c);
    } else if BlockOf(s, o, c).Block? {
      BlockKept(s, w, o, c);
    }
  }

  lemma EndIsNoBlock(s: string, w: string)
    requires AllNewlines(w)
    ensures MetaBlock(s + w) == MetaBlock(s) && BlockText(s + w) == BlockText(s)
  {
    MarksAre();
    MetaBlockIs(s);
    MetaBlockIs(s + w);
    SameBlock(s, w, OPEN, CLOSE);
    var b := MetaBlock(s);
    if b.Block? {
      BlockInside(s);
      SliceOfPrefix(s, w, b.start, b.end);
    }
  }

  lemma SliceOfPrefix(s: string, w: string, i: nat, k: nat)
    requires i <= k <= |s|
    ensures (s + w)[i..k] == s[i..k]
  {
  }

  lemma {:induction false} StripLeaves(v: string) returns (w: string)
    ensures v == StripNewlines(v) + w && AllNewlines(w)
  {
    w := "";
    if v != "" && v[|v| - 1] == '\n' {
      var x := StripLeaves(v[..|v| - 1]);
      w := x + "\n";
    }
  }

  lemma TidyRows(v: string, known: seq<string>)
    ensures Seen(Tidy(v), known) <==> Seen(v, known)
    ensures Flagged(Tidy(v), known) <==> Flagged(v, known)
  {
    var s := StripNewlines(v);
    var w := StripLeaves(v);
    EndIsNoBlock(s, w);
    EndIsNoBlock(s, "\n");
    FlaggedIsText(s, known);
    FlaggedIsText(s + w, known);
    FlaggedIsText(s + "\n", known);
  }

  lemma FlaggedIsText(t: string, known: seq<string>)
    ensures Flagged(t, known) <==> MetaBlock(t).Block? && SomeUnknown(PatternLines(BlockText(t)), known)
  {
  }

  // ----- the fixed file

  lemma SectionsRun(text: string)
    requires Headings(text) != []
    ensures Runs(Above(text), Cut(Lines(text), false).sections)
  {
    var sections := Cut(Lines(text), false).sections;
    AboveIs(text);
    forall k | 0 <= k < |sections|
      ensures IsText(sections, k)
    {
      OldSection(text, k);
      assert Join(sections[k])[..3][0] == '#';
    }
  }

  /** The places of the sections a text lacks, counted from its first heading. */
  function Lacking(text: string, canon: seq<string>): set<nat> {
    CutIs(Lines(text), false);
    Gaps(canon, Headings(text), Cut(Lines(text), false).sections)
  }

  /** A stretch of the text into which the fixer puts no section. */
  predicate Stays(text: string, canon: seq<string>, i: int, j: int) {
    Acts(text, canon) ==> !Torn(Lacking(text, canon), |Above(text)|, i, j)
  }

  /** What the checker flags of the rebuilt file, and what the fixer sees of it. */
  lemma RebuildRows(text: string, canon: seq<string>, bodies: Bodies, known: seq<string>)
    requires Canonical(canon, bodies) && Bland(canon, bodies) && Acts(text, canon)
    ensures SameRows(text, Rebuild(text, canon, bodies), known, RowLeft(text, known, Lacking(text, canon), |Above(text)|))
  {
    var d := Cut(Lines(text), false);
    CutIs(Lines(text), false);
    AboveIs(text);
    SectionsRun(text);
    Woven(Above(text), canon, Headings(text), d.sections, bodies, known);
    TemplateExact.RebuildIsTidy(text, canon, bodies);
    TidyRows(Above(text) + Join(Pieces(text, canon, bodies)), known);
  }

  lemma DropLeavesNone(text: string, known: seq<string>)
    ensures !Seen(DropFields(text, known), known)
    ensures Seen(text, known) ==> !Flagged(DropFields(text, known), known)
    ensures !Seen(text, known) ==> DropFields(text, known) == text
  {
    var b := MetaBlock(text);
    if b.Block? {
      UnchangedUnless(text, known);
      if Seen(text, known) {
        DroppedBlock(text, known);
      }
    }
  }

  /** The fixed file is flagged exactly for a row that the fixer did not see, in a block in which it saw no other, and into
      which it put no section. */
  lemma FixedFieldsIff(text: string, canon: seq<string>, bodies: Bodies, known: seq<string>)
    requires Canonical(canon, bodies) && Bland(canon, bodies)
    ensures Flagged(Fix(text, canon, bodies, known), known)
       <==> !Seen(text, known) && exists i, j :: RowAt(text, known, i, j) && Stays(text, canon, i, j)
  {
    var u := DropFields(text, known);
    DropLeavesNone(text, known);
    FlaggedAt(u, known);
    if Acts(u, canon) {
      RebuildRows(u, canon, bodies, known);
    }
  }

  /** With newlines as its only line boundaries, a block is left with no unknown row, whatever was put into it. */
  lemma FixedFieldsGone(text: string, canon: seq<string>, bodies: Bodies, known: seq<string>)
    requires Canonical(canon, bodies) && Bland(canon, bodies) && NewlinesOnly(BlockText(text))
    ensures !Flagged(Fix(text, canon, bodies, known), known)
  {
    FixedFieldsIff(text, canon, bodies, known);
    FlaggedAt(text, known);
    FlaggedIsText(text, known);
    SameLines(BlockText(text));
    EmptyIsKnown(known);
  }

  /** Fixing a fixed file changes nothing exactly when the rebuild did nothing, could complete the file, or ran into a
      heading at the end of it. */
  lemma FixSettlesIff(text: string, canon: seq<string>, bodies: Bodies, known: seq<string>)
    requires Canonical(canon, bodies) && Bland(canon, bodies)
    ensures var r := Fix(text, canon, bodies, known);
      Fix(r, canon, bodies, known) == r
      <==> !Acts(text, canon) || LastPresent(text, canon) || Whole(text) || EndsInHeading(Lines(text))
  {
    var u := DropFields(text, known);
    DropLeavesNone(text, known);
    DropKeepsHeadings(text, known);
    DropKeepsEnd(text, known);
    if Acts(u, canon) {
      RebuildRows(u, canon, bodies, known);
    }
    DropLeavesNone(Rebuild(u, canon, bodies), known);
    RebuildSettlesIff(u, canon, bodies);
  }
}
