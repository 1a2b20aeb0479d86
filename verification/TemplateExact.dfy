/** The rebuild leaves the canonical headings exactly when nothing can swallow a new section: the converse
    of `TemplateComplete`. */
module TemplateExact {
  import opened TextLines
  import opened Template
  import opened TemplateFix
  import opened TemplateRebuild
  import opened TemplateComplete

  function NewTexts(names: seq<string>, bodies: Bodies): seq<string>
    requires forall n :: n in names ==> n in bodies
  {
    if names == [] then [] else [NewSection(names[0], bodies[names[0]])] + NewTexts(names[1..], bodies)
  }

  ghost predicate Seeds(names: seq<string>, bodies: Bodies) {
    forall n :: n in names ==> n in bodies && OneLine(n) && Strip(n) == n && Plain(Lines(bodies[n]))
  }

  lemma {:induction false} NewTextsEnd(names: seq<string>, bodies: Bodies)
    requires Seeds(names, bodies)
    ensures var t := Join(NewTexts(names, bodies)); Closed(t) && (names != [] ==> t != "" && t[0] == '#')
  {
    if names != [] {
      NewSectionEnds(names[0], bodies[names[0]]);
      NewTextsEnd(names[1..], bodies);
      LastOf(NewSection(names[0], bodies[names[0]]), Join(NewTexts(names[1..], bodies)));
    }
  }

  lemma LastOf(a: string, b: string)
    requires a != ""
    ensures (a + b)[0] == a[0] && (a + b)[|a + b| - 1] == if b == "" then a[|a| - 1] else b[|b| - 1]
  {
  }

  /** New sections behind an open fence are code; elsewhere each has its heading. */
  lemma {:induction false} NewTextsNames(names: seq<string>, bodies: Bodies, inCode: bool)
    requires Seeds(names, bodies)
    ensures var t := Join(NewTexts(names, bodies)); Names(Lines(t), inCode) == if inCode then [] else names
  {
    if names != [] {
      var rest := Join(NewTexts(names[1..], bodies));
      NewTextsNames(names[1..], bodies, inCode);
      NewTextsEnd(names[1..], bodies);
      JoinNew(names, bodies);
      FirstNew(names[0], bodies[names[0]], rest, inCode);
      OneMore(names, inCode);
    }
  }

  lemma OneMore(names: seq<string>, inCode: bool)
    requires names != []
    ensures (if inCode then [] else [names[0]]) + (if inCode then [] else names[1..]) == if inCode then [] else names
  {
  }

  lemma JoinNew(names: seq<string>, bodies: Bodies)
    requires names != [] && forall n :: n in names ==> n in bodies
    ensures Join(NewTexts(names, bodies)) == NewSection(names[0], bodies[names[0]]) + Join(NewTexts(names[1..], bodies))
  {
    assert NewTexts(names, bodies)[1..] == NewTexts(names[1..], bodies);
  }

  lemma FirstNew(name: string, body: string, rest: string, inCode: bool)
    requires OneLine(name) && Strip(name) == name && Plain(Lines(body)) && (rest != "" ==> rest[0] == '#')
    ensures Names(Lines(NewSection(name, body) + rest), inCode)
         == (if inCode then [] else [name]) + Names(Lines(rest), inCode)
  {
    var first := NewSection(name, body);
    NewSectionIs(name, body);
    NewSectionEnds(name, body);
    LinesConcat(first, rest);
    NamesConcat(Lines(first), Lines(rest), inCode);
  }

  lemma NewSectionEnds(name: string, body: string)
    ensures var t := NewSection(name, body); |t| > 2 && t[|t| - 1] == '\n' && t[0] == '#' && t[2] == ' '
  {
    var front := HEADING + name + "\n\n" + body;
    assert NewSection(name, body) == front + "\n\n";
    assert front[0] == HEADING[0] && front[2] == HEADING[2];
  }

  /** A text's first line is scanned first, whatever is added behind the others. */
  lemma FirstLineFirst(u: string, more: string, inCode: bool)
    requires LineEnd(u) < |u|
    ensures var head, tail := u[..LineEnd(u)], u[LineEnd(u)..]; var code := InCode([head], inCode);
      && Names(Lines(u), inCode) == Names([head], inCode) + Names(Lines(tail), code)
      && Names(Lines(u + more), inCode) == Names([head], inCode) + Names(Lines(tail + more), code)
  {
    var head, tail := u[..LineEnd(u)], u[LineEnd(u)..];
    LineEndIs(u);
    assert u + more == head + (tail + more);
    LinesCons(head, tail + more);
    NamesConcat([head], Lines(tail + more), inCode);
    NamesConcat([head], Lines(tail), inCode);
  }

  /** An unfinished last line takes the next heading into itself. */
  lemma {:induction false} Glue(u: string, names: seq<string>, bodies: Bodies, inCode: bool)
    requires u != "" && !Closed(u) && names != [] && Seeds(names, bodies)
    ensures |Names(Lines(u + Join(NewTexts(names, bodies))), inCode)| <= |Names(Lines(u), inCode)| + |names| - 1
    decreases |u|
  {
    var n := LineEnd(u);
    if n < |u| {
      FirstLineFirst(u, Join(NewTexts(names, bodies)), inCode);
      Glue(u[n..], names, bodies, InCode([u[..n]], inCode));
    } else {
      assert u[..n] == u && u[n..] == "";
      assert Lines(u) == [u];
      GluedLine(u, names, bodies, inCode);
    }
  }

  lemma GluedLine(u: string, names: seq<string>, bodies: Bodies, inCode: bool)
    requires IsLine(u) && !Terminated(u) && names != [] && Seeds(names, bodies)
    ensures |Names(Lines(u + Join(NewTexts(names, bodies))), inCode)| <= |Names([u], inCode)| + |names| - 1
  {
    var rest := Join(NewTexts(names[1..], bodies));
    var code := InCode([u], inCode);
    GluedLines(u, names[0], bodies[names[0]], rest);
    var glued := u + (HEADING + names[0] + "\n");
    GlueLine(u, names[0]);
    SameKind(u, glued, inCode);
    NamesConcat([glued], Lines(Seed(bodies[names[0]]) + rest), inCode);
    NewTextsNames(names[1..], bodies, code);
    SeedIsQuiet(bodies[names[0]], rest, code);
  }

  lemma SameKind(l: string, m: string, inCode: bool)
    requires IsFence(l) == IsFence(m) && IsHeading(l) == IsHeading(m)
    ensures |Names([l], inCode)| == |Names([m], inCode)| <= 1 && InCode([l], inCode) == InCode([m], inCode)
  {
  }

  lemma GluedLines(u: string, name: string, body: string, rest: string)
    requires IsLine(u) && !Terminated(u) && OneLine(name) && Strip(name) == name && Plain(Lines(body))
    ensures Lines(u + (NewSection(name, body) + rest))
         == [u + (HEADING + name + "\n")] + Lines(Seed(body) + rest)
  {
    var h := HEADING + name + "\n";
    NewSectionLines(name, body);
    GlueLine(u, name);
    assert u + ((h + Seed(body)) + rest) == (u + h) + (Seed(body) + rest);
    LinesCons(u + h, Seed(body) + rest);
  }

  lemma SeedIsQuiet(body: string, rest: string, inCode: bool)
    requires Plain(Lines(body))
    ensures Names(Lines(Seed(body) + rest), inCode) == Names(Lines(rest), inCode)
  {
    SeedIsPlain(body);
    LinesConcat(Seed(body), rest);
    NamesConcat(Lines(Seed(body)), Lines(rest), inCode);
    PlainIsQuiet(Lines(Seed(body)), inCode);
  }

  lemma GlueLine(u: string, name: string)
    requires IsLine(u) && !Terminated(u) && OneLine(name)
    ensures var l := u + (HEADING + name + "\n");
      IsLine(l) && Terminated(l) && IsFence(l) == IsFence(u) && IsHeading(l) == IsHeading(u)
      && l[|l| - 1] == '\n'
  {
    LineOf(HEADING + name);
    GlueEnds(u, HEADING + name + "\n");
    KindAfter(u, HEADING + name + "\n");
  }

  lemma {:induction false} GlueEnds(u: string, h: string)
    requires IsLine(u) && !Terminated(u) && IsLine(h) && h[0] == '#'
    ensures IsLine(u + h)
  {
    if |u| > 1 {
      assert (u + h)[1..] == u[1..] + h;
      GlueEnds(u[1..], h);
    } else {
      assert (u + h)[1..] == h;
    }
  }

  // ----- where the last present heading stands

  lemma {:induction false} AfterLast(present: seq<string>, order: seq<string>) returns (j: nat)
    requires present != [] && IsSubsequence(present, order) && Distinct(order)
    ensures j < |order| && order[j] == present[|present| - 1]
    ensures forall i :: j < i < |order| ==> order[i] !in present
  {
    SubsequenceIn(present, order);
    assert present[0] in order;
    assert order == [order[0]] + order[1..];
    assert Distinct(order[1..]) by {
      assert forall i :: 0 <= i < |order[1..]| ==> order[1..][i] == order[i + 1];
    }
    if present[0] != order[0] {
      var i := AfterLast(present, order[1..]);
      j := i + 1;
      assert forall i :: j < i < |order| ==> order[i] == order[1..][i - 1];
    } else if |present| == 1 {
      j := 0;
      assert forall i :: 0 < i < |order| ==> order[i] != present[0];
    } else {
      var i := AfterLast(present[1..], order[1..]);
      j := i + 1;
      assert present == [present[0]] + present[1..];
      assert forall i :: j < i < |order| ==> order[i] == order[1..][i - 1] && order[i] != order[0];
    }
  }

  lemma {:induction false} MissingPieces(canon: seq<string>, names: seq<string>, sections: seq<seq<string>>, bodies: Bodies)
    requires |names| == |sections| && Seeds(canon, bodies)
    requires forall n :: n in canon ==> n !in names
    ensures PieceTexts(canon, names, sections, bodies) == NewTexts(canon, bodies)
  {
    if canon != [] {
      MissingPieces(canon[1..], names, sections, bodies);
    }
  }

  lemma Regroup<T>(x: T, a: seq<T>, b: seq<T>)
    ensures [x] + (a + b) == ([x] + a) + b
  {
  }

  lemma {:induction false} PiecesSplit(canon: seq<string>, j: nat, names: seq<string>, sections: seq<seq<string>>, bodies: Bodies)
    requires |names| == |sections| && j <= |canon| && forall n :: n in canon ==> n in bodies
    ensures PieceTexts(canon, names, sections, bodies)
         == PieceTexts(canon[..j], names, sections, bodies) + PieceTexts(canon[j..], names, sections, bodies)
  {
    if j > 0 {
      var kept := canon[..j];
      assert canon[1..][..j - 1] == kept[1..] && canon[1..][j - 1..] == canon[j..];
      PiecesSplit(canon[1..], j - 1, names, sections, bodies);
      Regroup(PieceText(canon[0], names, sections, bodies), PieceTexts(kept[1..], names, sections, bodies),
              PieceTexts(canon[j..], names, sections, bodies));
    } else {
      assert canon[0..] == canon;
    }
  }

  /** The text up to the last section that was there, its gaps filled. */
  function Filled(text: string, kept: seq<string>, bodies: Bodies): string
    requires forall n :: n in kept ==> n in bodies
  {
    Join(Cut(Lines(text), false).preamble) + Join(Pieces(text, kept, bodies))
  }

  lemma FilledIs(text: string, kept: seq<string>, bodies: Bodies)
    requires Canonical(kept, bodies) && LastPresent(text, kept)
    ensures Cut(Lines(Filled(text, kept, bodies)), false)
         == Document(Cut(Lines(text), false).preamble, LinesOfAll(Pieces(text, kept, bodies)))
    ensures Headings(Filled(text, kept, bodies)) == kept
  {
    CutIs(Lines(text), false);
    PiecesAreSections(text, kept, bodies);
    OldPreamble(text);
    CutOfTexts(Join(Cut(Lines(text), false).preamble), Pieces(text, kept, bodies), kept);
  }

  /** What follows the filled part is new. */
  lemma FilledThenNew(text: string, canon: seq<string>, bodies: Bodies, j: nat)
    requires Canonical(canon, bodies) && j <= |canon|
    requires forall i :: j <= i < |canon| ==> canon[i] !in Headings(text)
    ensures forall n :: n in canon[..j] || n in canon[j..] ==> n in bodies
    ensures Join(Cut(Lines(text), false).preamble) + Join(Pieces(text, canon, bodies))
         == Filled(text, canon[..j], bodies) + Join(NewTexts(canon[j..], bodies))
  {
    var d, names, missing := Cut(Lines(text), false), Headings(text), canon[j..];
    CutIs(Lines(text), false);
    KeptIsCanonical(canon, bodies, j);
    PiecesSplit(canon, j, names, d.sections, bodies);
    MissingPieces(missing, names, d.sections, bodies);
    JoinConcat(Pieces(text, canon[..j], bodies), NewTexts(missing, bodies));
    Grouped(Join(d.preamble), Join(Pieces(text, canon[..j], bodies)), Join(NewTexts(missing, bodies)));
  }

  lemma Grouped<T>(a: seq<T>, b: seq<T>, c: seq<T>)
    ensures a + (b + c) == (a + b) + c
  {
  }

  lemma KeptIsCanonical(canon: seq<string>, bodies: Bodies, j: nat)
    requires Canonical(canon, bodies) && j <= |canon|
    ensures Canonical(canon[..j], bodies) && Seeds(canon[j..], bodies)
  {
    assert forall n :: n in canon[..j] ==> n in canon;
    assert forall n :: n in canon[j..] ==> n in canon;
  }

  /** The filled part ends as the file did. */
  lemma EndOfFilled(text: string, kept: seq<string>, bodies: Bodies)
    requires Canonical(kept, bodies) && LastPresent(text, kept)
    ensures var u := Filled(text, kept, bodies);
      u != "" && (Closed(u) <==> Closed(text)) && InCode(Lines(u), false) == InCode(Lines(text), false)
  {
    FilledCode(text, kept, bodies);
    LastPiece(text, kept, bodies);
    LastCharacter(text, kept, bodies);
    OldSection(text, |Cut(Lines(text), false).sections| - 1);
  }

  lemma CodeAtEnd(text: string)
    requires Cut(Lines(text), false).sections != []
    ensures var s := Cut(Lines(text), false).sections;
      InCode(Lines(text), false) == InCode(Lines(Join(s[|s| - 1])), false)
  {
    OldSection(text, |Cut(Lines(text), false).sections| - 1);
    LastSectionCode(Lines(text), false);
  }

  lemma FilledCode(text: string, kept: seq<string>, bodies: Bodies)
    requires Canonical(kept, bodies) && LastPresent(text, kept)
    ensures InCode(Lines(Filled(text, kept, bodies)), false) == InCode(Lines(text), false)
  {
    LastPiece(text, kept, bodies);
    CodeAtEnd(text);
    FilledIs(text, kept, bodies);
    LastSectionCode(Lines(Filled(text, kept, bodies)), false);
    LastOfAll(Pieces(text, kept, bodies));
  }

  lemma LastCharacter(text: string, kept: seq<string>, bodies: Bodies)
    requires Canonical(kept, bodies) && LastPresent(text, kept) && Pieces(text, kept, bodies) != []
    ensures var u, ts := Filled(text, kept, bodies), Pieces(text, kept, bodies); var last := ts[|ts| - 1];
      last != "" && u != "" && u[|u| - 1] == last[|last| - 1]
  {
    PiecesAreSections(text, kept, bodies);
    SectionsNotEmpty(Pieces(text, kept, bodies), kept);
    JoinEnd(Pieces(text, kept, bodies));
  }

  lemma LastPiece(text: string, kept: seq<string>, bodies: Bodies)
    requires Canonical(kept, bodies) && LastPresent(text, kept)
    ensures var ts, s := Pieces(text, kept, bodies), Cut(Lines(text), false).sections;
      ts != [] && s != [] && ts[|ts| - 1] == Join(s[|s| - 1])
  {
    CutIs(Lines(text), false);
    PieceAt(kept, Headings(text), Cut(Lines(text), false).sections, bodies);
  }

  lemma SectionsNotEmpty(ts: seq<string>, names: seq<string>)
    requires AreSectionTexts(ts, names)
    ensures forall i :: 0 <= i < |ts| ==> ts[i] != ""
  {
    forall i | 0 <= i < |ts|
      ensures ts[i] != ""
    {
      assert IsSectionText(ts[i], names[i]);
    }
  }

  lemma {:induction false} LastOfAll(ts: seq<string>)
    requires ts != []
    ensures var all := LinesOfAll(ts); all != [] && all[|all| - 1] == Lines(ts[|ts| - 1])
  {
    if |ts| > 1 {
      LastOfAll(ts[1..]);
    }
  }

  // ----- the main result

  lemma TidyHeadings(t: string)
    ensures Headings(Tidy(t)) == Headings(t)
  {
    StripKeepsNames(t);
    NewlineKeepsNames(StripNewlines(t), false);
  }

  /** The pieces of a file the fixer acts on, the last one's trailing newlines made one. */
  lemma PiecesTidied(text: string, canon: seq<string>, bodies: Bodies)
    requires Canonical(canon, bodies) && Acts(text, canon)
    ensures var ts := Join(Pieces(text, canon, bodies));
      StripNewlines(ts) != "" && Tidy(ts) == Join(Rebuilt(text, canon, bodies))
  {
    var ts, d := Pieces(text, canon, bodies), Cut(Lines(text), false);
    SubsequenceIn(Headings(text), canon);
    assert Headings(text)[0] in canon;
    CutIs(Lines(text), false);
    PieceAt(canon, Headings(text), d.sections, bodies);
    forall i | 0 <= i < |ts|
      ensures StartsWith(ts[i], HEADING)
    {
      PieceIsSection(text, canon[i], bodies);
    }
    TidyLast(ts);
  }

  /** The rebuilt text as a whole, its trailing newlines made one. */
  lemma RebuildIsTidy(text: string, canon: seq<string>, bodies: Bodies)
    requires Canonical(canon, bodies) && Acts(text, canon)
    ensures Rebuild(text, canon, bodies)
         == Tidy(Join(Cut(Lines(text), false).preamble) + Join(Pieces(text, canon, bodies)))
  {
    PiecesTidied(text, canon, bodies);
    StripAfter(Join(Cut(Lines(text), false).preamble), Join(Pieces(text, canon, bodies)));
  }

  /** Whatever a file ends in, the text of each of its sections stands in the rebuilt file, behind the old preamble. */
  lemma RebuildKeepsText(text: string, canon: seq<string>, bodies: Bodies, k: nat) returns (a: string, b: string)
    requires Canonical(canon, bodies) && Acts(text, canon) && k < |Cut(Lines(text), false).sections|
    ensures var d := Cut(Lines(text), false); var was := Join(d.sections[k]);
      && |Headings(text)| == |d.sections|
      && Rebuild(text, canon, bodies)
         == Join(d.preamble) + (a + ((if Headings(text)[k] == canon[|canon| - 1] then Tidy(was) else was) + b))
  {
    var j := PlaceOf(text, canon, k);
    var us := Rebuilt(text, canon, bodies);
    RebuiltAt(text, canon, bodies, j, k);
    RebuildTidies(text, canon, bodies);
    PiecesTidied(text, canon, bodies);
    assert j == |canon| - 1 <==> canon[j] == canon[|canon| - 1];
    a, b := Join(us[..j]), Join(us[j + 1..]);
    JoinAround(us, j);
  }

  lemma PlaceOf(text: string, canon: seq<string>, k: nat) returns (j: nat)
    requires Distinct(canon) && Acts(text, canon) && k < |Cut(Lines(text), false).sections|
    ensures |Headings(text)| == |Cut(Lines(text), false).sections| && Distinct(Headings(text))
    ensures j < |canon| && canon[j] == Headings(text)[k]
  {
    CutIs(Lines(text), false);
    SubsequenceIn(Headings(text), canon);
    assert Headings(text)[k] in canon;
    j :| 0 <= j < |canon| && canon[j] == Headings(text)[k];
  }

  lemma JoinAround(us: seq<string>, j: nat)
    requires j < |us|
    ensures Join(us) == Join(us[..j]) + (us[j] + Join(us[j + 1..]))
  {
    var tail := us[j..];
    assert us[..j] + tail == us;
    JoinConcat(us[..j], tail);
    assert tail[0] == us[j] && tail[1..] == us[j + 1..];
  }

  lemma RebuildHeadings(text: string, canon: seq<string>, bodies: Bodies)
    requires Canonical(canon, bodies) && Acts(text, canon)
    ensures Headings(Rebuild(text, canon, bodies))
         == Headings(Join(Cut(Lines(text), false).preamble) + Join(Pieces(text, canon, bodies)))
  {
    RebuildIsTidy(text, canon, bodies);
    TidyHeadings(Join(Cut(Lines(text), false).preamble) + Join(Pieces(text, canon, bodies)));
  }

  /** With the last canonical section missing from a file that is not whole, a heading is swallowed. */
  lemma RebuildSwallows(text: string, canon: seq<string>, bodies: Bodies)
    requires Canonical(canon, bodies) && Acts(text, canon)
    requires !LastPresent(text, canon) && !Whole(text)
    ensures |Headings(Rebuild(text, canon, bodies))| < |canon|
  {
    var j := AfterLast(Headings(text), canon);
    KeptIsCanonical(canon, bodies, j + 1);
    FilledIs(text, canon[..j + 1], bodies);
    EndOfFilled(text, canon[..j + 1], bodies);
    Swallowed(Filled(text, canon[..j + 1], bodies), canon[j + 1..], bodies);
    RebuildIsFilled(text, canon, bodies, j + 1);
  }

  lemma RebuildIsFilled(text: string, canon: seq<string>, bodies: Bodies, j: nat)
    requires Canonical(canon, bodies) && Acts(text, canon) && j <= |canon|
    requires forall i :: j <= i < |canon| ==> canon[i] !in Headings(text)
    ensures forall n :: n in canon[..j] || n in canon[j..] ==> n in bodies
    ensures Headings(Rebuild(text, canon, bodies))
         == Headings(Filled(text, canon[..j], bodies) + Join(NewTexts(canon[j..], bodies)))
  {
    RebuildHeadings(text, canon, bodies);
    FilledThenNew(text, canon, bodies, j);
  }

  /** Behind an open fence, or an unfinished line, fewer headings come than are written. */
  lemma Swallowed(u: string, missing: seq<string>, bodies: Bodies)
    requires u != "" && !Whole(u) && missing != [] && Seeds(missing, bodies)
    ensures |Headings(u + Join(NewTexts(missing, bodies)))| < |Headings(u)| + |missing|
  {
    if Closed(u) {
      NewTextsNames(missing, bodies, true);
      NewTextsEnd(missing, bodies);
      LinesConcat(u, Join(NewTexts(missing, bodies)));
      NamesConcat(Lines(u), Lines(Join(NewTexts(missing, bodies))), false);
    } else {
      Glue(u, missing, bodies, false);
    }
  }

  /** The checker's headings after the fix, for every file: canonical exactly when they were already, or the
      fixer acts and the last canonical section is there, or the file ends its last line outside code. */
  lemma FixedIff(text: string, canon: seq<string>, bodies: Bodies)
    requires Canonical(canon, bodies)
    ensures Headings(Rebuild(text, canon, bodies)) == canon
       <==> Headings(text) == canon || (Acts(text, canon) && (LastPresent(text, canon) || Whole(text)))
  {
    if Acts(text, canon) {
      if LastPresent(text, canon) || Whole(text) {
        RebuildCompletes(text, canon, bodies);
      } else {
        RebuildSwallows(text, canon, bodies);
      }
    }
  }
}
