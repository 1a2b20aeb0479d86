/** Exactly when a second rebuild finds nothing to do (`scripts/fix_roadmap_drift.py`): what an open fence or an
    unfinished line has swallowed is added again. */
module TemplateSettles {
  import opened TextLines
  import opened Template
  import opened TemplateFix
  import opened TemplateRebuild
  import opened TemplateComplete
  import opened TemplateExact

  /** The last line is a heading, outside code, that nothing ends. */
  predicate EndsInHeading(lines: seq<string>) {
    lines != [] && var l := lines[|lines| - 1]; !Terminated(l) && IsHeading(l) && !InCode(lines, false)
  }

  // ----- subsequences

  lemma {:induction false} SubsequenceFits(present: seq<string>, order: seq<string>)
    requires IsSubsequence(present, order)
    ensures |present| <= |order|
  {
    if present != [] {
      SubsequenceFits(if present[0] == order[0] then present[1..] else present, order[1..]);
    }
  }

  lemma {:induction false} SubsequenceBehind(a: seq<string>, c: seq<string>, d: seq<string>)
    ensures IsSubsequence(a + c, a + d) <==> IsSubsequence(c, d)
  {
    if a == [] {
      assert a + c == c && a + d == d;
    } else {
      assert (a + c)[1..] == a[1..] + c && (a + d)[1..] == a[1..] + d;
      SubsequenceBehind(a[1..], c, d);
    }
  }

  /** One name left out is found missing. */
  lemma LeftOut(a: seq<string>, x: string, b: seq<string>)
    requires Distinct(a + ([x] + b))
    ensures IsSubsequence(a + b, a + ([x] + b)) && !NothingMissing(a + b, a + ([x] + b))
  {
    var all := a + ([x] + b);
    assert all[|a|] == x;
    assert x !in a + b by {
      forall i | 0 <= i < |a + b|
        ensures (a + b)[i] != x
      {
        assert (a + b)[i] == all[if i < |a| then i else i + 1];
      }
    }
    SubsequenceBehind(a, b, [x] + b);
    SubsequenceBehind([], b, b);
    SameSubsequence(b);
    if b != [] {
      assert all[|a| + 1] == b[0];
      assert ([x] + b)[1..] == b;
    }
  }

  lemma {:induction false} SameSubsequence(b: seq<string>)
    ensures IsSubsequence(b, b)
  {
    if b != [] {
      SameSubsequence(b[1..]);
    }
  }

  /** The first names alone, with more to come. */
  lemma CutShort(a: seq<string>, c: seq<string>)
    requires Distinct(a + c) && c != []
    ensures IsSubsequence(a, a + c) && !NothingMissing(a, a + c)
  {
    SubsequenceBehind(a, [], c);
    assert a + [] == a;
    assert (a + c)[|a|] == c[0];
    assert c[0] !in a by {
      forall i | 0 <= i < |a|
        ensures a[i] != c[0]
      {
        assert (a + c)[i] == a[i];
      }
    }
  }

  /** A foreign name in the place of two is out of order. */
  lemma OutOfOrder(a: seq<string>, g: string, x: string, y: string, b: seq<string>)
    requires g != x && g != y
    ensures !IsSubsequence(a + ([g] + b), a + ([x] + ([y] + b)))
  {
    SubsequenceBehind(a, [g] + b, [x] + ([y] + b));
    assert ([x] + ([y] + b))[1..] == [y] + b && ([y] + b)[1..] == b;
    if IsSubsequence([g] + b, b) {
      SubsequenceFits([g] + b, b);
    }
  }

  // ----- a heading with another one behind it on its line

  lemma {:induction false} StripLeftConcat(a: string, b: string)
    ensures StripLeft(a + b) == if StripLeft(a) == "" then StripLeft(b) else StripLeft(a) + b
  {
    if a == "" {
      assert a + b == b;
    } else {
      assert (a + b)[1..] == a[1..] + b;
      StripLeftConcat(a[1..], b);
    }
  }

  lemma {:induction false} StripRightAtLeast(s: string, n: nat)
    requires n <= |s| && (n > 0 ==> !IsSpace(s[n - 1]))
    ensures |StripRight(s)| >= n
  {
    if s != "" && IsSpace(s[|s| - 1]) {
      StripRightAtLeast(s[..|s| - 1], n);
    }
  }

  lemma {:induction false} StripRightFits(s: string)
    ensures |StripRight(s)| <= |s| && (StripRight(s) == s && s != "" ==> !IsSpace(s[|s| - 1]))
  {
    if s != "" && IsSpace(s[|s| - 1]) {
      StripRightFits(s[..|s| - 1]);
    }
  }

  lemma {:induction false} StripLeftFits(s: string)
    ensures |StripLeft(s)| <= |s|
  {
    if s != "" && IsSpace(s[0]) {
      StripLeftFits(s[1..]);
    }
  }

  /** The name of two headings on one line is longer than either name. */
  lemma GluedNameIsLonger(l: string, name: string)
    requires IsHeading(l) && Strip(name) == name
    ensures IsHeading(l + (HEADING + name + "\n"))
    ensures var g := NameOf(l + (HEADING + name + "\n")); |g| > |NameOf(l)| && |g| > |name|
  {
    var t, m := l[3..], HEADING + name + "\n";
    var all := l + m;
    assert all[..3] == l[..3] && all[3..] == t + m;
    StripLeftConcat(t, m);
    assert m[0] == '#' && StripLeft(m) == m;
    var front := StripLeft(t);
    assert StripLeft(t + m) == front + m;
    StripRightFits(front);
    StripLeftFits(name);
    StripRightFits(StripLeft(name));
    assert StripLeft(name) == name by { StripLeftWhole(name); }
    if name == "" {
      assert (front + m)[|front| + 1] == '#';
      StripRightAtLeast(front + m, |front| + 2);
    } else {
      assert (front + m)[|front| + |name| + 2] == name[|name| - 1];
      StripRightAtLeast(front + m, |front| + |name| + 3);
    }
  }

  lemma {:induction false} StripLeftWhole(s: string)
    requires |StripLeft(s)| == |s|
    ensures StripLeft(s) == s
  {
    if s != "" && IsSpace(s[0]) {
      StripLeftFits(s[1..]);
    }
  }

  // ----- what is found behind an unfinished line

  /** A text without its last line, and that line. */
  ghost predicate Ends(u: string, front: string, l: string) {
    && u == front + l && Lines(u) == Lines(front) + [l]
    && Closed(front) && !Merges(front, l) && IsLine(l) && (Terminated(l) <==> Closed(u))
  }

  lemma LastLine(u: string) returns (front: string, l: string)
    requires u != ""
    ensures Ends(u, front, l)
  {
    var lines := Lines(u);
    LinesAreProper(u);
    var n := |lines| - 1;
    front, l := Join(lines[..n]), lines[n];
    SliceText(u, 0, n);
    assert lines[0..n] == lines[..n];
    JoinLines(u);
    JoinLast(lines, n);
    FrontEnd(lines, n);
  }

  lemma JoinLast(lines: seq<string>, n: nat)
    requires |lines| == n + 1
    ensures lines == lines[..n] + [lines[n]] && Join(lines) == Join(lines[..n]) + lines[n]
  {
    assert lines == lines[..n] + [lines[n]];
    JoinConcat(lines[..n], [lines[n]]);
    assert lines[n] + "" == lines[n];
  }

  lemma FrontEnd(lines: seq<string>, n: nat)
    requires Proper(lines) && n < |lines|
    ensures !Merges(Join(lines[..n]), lines[n])
  {
    if n > 0 {
      ProperSlice(lines, 0, n);
      assert lines[0..n] == lines[..n];
      JoinEnd(lines[..n]);
      assert !Merges(lines[n - 1], lines[n]);
    }
  }

  /** The names of the text before its last line, of the last line with the first new heading, and of the rest. */
  lemma GluedNames(u: string, front: string, l: string, names: seq<string>, bodies: Bodies)
    requires Ends(u, front, l) && !Closed(u) && names != [] && Seeds(names, bodies)
    ensures var code := InCode(Lines(front), false);
      && Headings(u) == Names(Lines(front), false) + Names([l], code) && InCode(Lines(u), false) == InCode([l], code)
      && Headings(u + Join(NewTexts(names, bodies)))
         == Names(Lines(front), false)
            + (Names([l + (HEADING + names[0] + "\n")], code) + if InCode([l], code) then [] else names[1..])
  {
    var more := Join(NewTexts(names, bodies));
    NamesConcat(Lines(front), [l], false);
    Grouped(front, l, more);
    assert (l + more)[0] == l[0];
    LinesConcat(front, l + more);
    NamesConcat(Lines(front), Lines(l + more), false);
    GluedTail(l, names, bodies, InCode(Lines(front), false));
  }

  lemma GluedTail(l: string, names: seq<string>, bodies: Bodies, inCode: bool)
    requires IsLine(l) && !Terminated(l) && names != [] && Seeds(names, bodies)
    ensures Names(Lines(l + Join(NewTexts(names, bodies))), inCode)
         == Names([l + (HEADING + names[0] + "\n")], inCode) + if InCode([l], inCode) then [] else names[1..]
  {
    var rest, glued := Join(NewTexts(names[1..], bodies)), l + (HEADING + names[0] + "\n");
    var code := InCode([l], inCode);
    GluedLines(l, names[0], bodies[names[0]], rest);
    GlueLine(l, names[0]);
    SameKind(l, glued, inCode);
    NamesConcat([glued], Lines(Seed(bodies[names[0]]) + rest), inCode);
    NewTextsNames(names[1..], bodies, code);
    SeedIsQuiet(bodies[names[0]], rest, code);
  }

  /** Behind an open fence nothing new is found. */
  lemma InCodeNames(u: string, names: seq<string>, bodies: Bodies)
    requires u != "" && Closed(u) && InCode(Lines(u), false) && names != [] && Seeds(names, bodies)
    ensures Headings(u + Join(NewTexts(names, bodies))) == Headings(u)
  {
    NewTextsNames(names, bodies, true);
    NewTextsEnd(names, bodies);
    LinesConcat(u, Join(NewTexts(names, bodies)));
    NamesConcat(Lines(u), Lines(Join(NewTexts(names, bodies))), false);
  }

  /** What is found after new sections behind a text that is not whole: the headings up to there, and perhaps all the new
      ones but the first; or, when the text ends in a heading, a longer name in the place of two. */
  ghost predicate IsFound(found: seq<string>, kept: seq<string>, missing: seq<string>, heading: bool)
    requires kept != [] && missing != []
  {
    var k := |kept| - 1;
    if heading then exists g :: TakesTwo(g, kept[k], missing[0]) && found == kept[..k] + ([g] + missing[1..])
    else found == kept || found == kept + missing[1..]
  }

  predicate TakesTwo(g: string, x: string, y: string) {
    |g| > |x| && |g| > |y|
  }

  lemma Found(u: string, kept: seq<string>, missing: seq<string>, bodies: Bodies)
    requires u != "" && !Whole(u) && kept != [] && missing != [] && Seeds(missing, bodies) && Headings(u) == kept
    ensures IsFound(Headings(u + Join(NewTexts(missing, bodies))), kept, missing, EndsInHeading(Lines(u)))
  {
    var front, l := LastLine(u);
    if Closed(u) {
      InCodeNames(u, missing, bodies);
    } else {
      GluedNames(u, front, l, missing, bodies);
      FoundBehind(l, Names(Lines(front), false), kept, missing, InCode(Lines(front), false),
                  Headings(u + Join(NewTexts(missing, bodies))));
    }
  }

  lemma FoundBehind(l: string, before: seq<string>, kept: seq<string>, missing: seq<string>, code: bool, found: seq<string>)
    requires IsLine(l) && !Terminated(l) && kept != [] && missing != [] && OneLine(missing[0]) && Strip(missing[0]) == missing[0]
    requires kept == before + Names([l], code)
    requires found == before + (Names([l + (HEADING + missing[0] + "\n")], code)
                                + if InCode([l], code) then [] else missing[1..])
    ensures IsFound(found, kept, missing, IsHeading(l) && !InCode([l], code))
  {
    var glued := l + (HEADING + missing[0] + "\n");
    GlueLine(l, missing[0]);
    if IsHeading(l) {
      assert l[..3][0] == '#';
    }
    if IsHeading(l) && !InCode([l], code) {
      GluedNameIsLonger(l, missing[0]);
      assert kept == before + [NameOf(l)] && found == before + ([NameOf(glued)] + missing[1..]);
      assert kept[..|kept| - 1] == before && TakesTwo(NameOf(glued), kept[|kept| - 1], missing[0]);
    } else {
      assert Names([l], code) == [] && Names([glued], code) == [];
      assert before + [] == before && [] + missing[1..] == missing[1..];
    }
  }

  // ----- a rebuild that acts changes the file

  lemma {:induction false} JoinFlatten(sections: seq<seq<string>>, ts: seq<string>)
    requires |ts| == |sections| && forall i :: 0 <= i < |ts| ==> ts[i] == Join(sections[i])
    ensures Join(ts) == Join(Flatten(sections))
  {
    if ts != [] {
      JoinFlatten(sections[1..], ts[1..]);
      JoinConcat(sections[0], Flatten(sections[1..]));
    }
  }

  /** With no gaps to fill, the filled text is the text. */
  lemma FilledIsText(text: string, bodies: Bodies)
    requires Canonical(Headings(text), bodies)
    ensures Filled(text, Headings(text), bodies) == text
  {
    var d, names := Cut(Lines(text), false), Headings(text);
    CutIs(Lines(text), false);
    PieceAt(names, names, d.sections, bodies);
    forall i | 0 <= i < |names|
      ensures Pieces(text, names, bodies)[i] == Join(d.sections[i])
    {
      TheIndex(names, i);
    }
    JoinFlatten(d.sections, Pieces(text, names, bodies));
    JoinLines(text);
    JoinConcat(d.preamble, Flatten(d.sections));
  }

  /** New sections behind the others make the file longer. */
  lemma GrowsBehind(text: string, canon: seq<string>, bodies: Bodies, k: nat)
    requires Canonical(canon, bodies) && 0 < k < |canon| && Headings(text) == canon[..k]
    ensures Rebuild(text, canon, bodies) != text
  {
    var missing := canon[k..];
    assert canon == canon[..k] + missing;
    CutShort(canon[..k], missing);
    forall i | k <= i < |canon|
      ensures canon[i] !in Headings(text)
    {
      assert forall h :: 0 <= h < k ==> canon[h] != canon[i];
    }
    KeptIsCanonical(canon, bodies, k);
    FilledIsText(text, bodies);
    FilledThenNew(text, canon, bodies, k);
    RebuildIsTidy(text, canon, bodies);
    var more := Join(NewTexts(missing, bodies));
    NewTextsStart(missing, bodies);
    assert (text + more)[|text| + 2] == more[2];
    StripIsPrefix(text + more, |text| + 3);
  }

  lemma NewTextsStart(names: seq<string>, bodies: Bodies)
    requires names != [] && Seeds(names, bodies)
    ensures var t := Join(NewTexts(names, bodies)); |t| > 2 && t[2] == ' '
  {
    NewSectionEnds(names[0], bodies[names[0]]);
    assert (NewSection(names[0], bodies[names[0]]) + Join(NewTexts(names[1..], bodies)))[2] == ' ';
  }

  lemma ActingChanges(text: string, canon: seq<string>, bodies: Bodies)
    requires Canonical(canon, bodies) && Acts(text, canon) && LastPresent(text, canon)
    ensures Rebuild(text, canon, bodies) != text
  {
    RebuildCompletes(text, canon, bodies);
    assert !NothingMissing(Headings(text), canon);
    assert NothingMissing(canon, canon);
  }

  // ----- the end of the file, by its last section

  lemma {:induction false} LastOfFlatten(sections: seq<seq<string>>)
    requires sections != [] && sections[|sections| - 1] != []
    ensures var all, s := Flatten(sections), sections[|sections| - 1]; all != [] && all[|all| - 1] == s[|s| - 1]
  {
    if |sections| > 1 {
      LastOfFlatten(sections[1..]);
    }
  }

  lemma EndIsLastSection(text: string)
    requires Cut(Lines(text), false).sections != []
    ensures var s := Cut(Lines(text), false).sections; EndsInHeading(Lines(text)) <==> EndsInHeading(s[|s| - 1])
  {
    var s := Cut(Lines(text), false).sections;
    CutIs(Lines(text), false);
    assert IsSection(s[|s| - 1], Headings(text)[|s| - 1]);
    LastSectionCode(Lines(text), false);
    LastOfFlatten(s);
  }

  lemma FilledEnd(text: string, kept: seq<string>, bodies: Bodies)
    requires Canonical(kept, bodies) && LastPresent(text, kept)
    ensures EndsInHeading(Lines(Filled(text, kept, bodies))) <==> EndsInHeading(Lines(text))
  {
    var s := Cut(Lines(text), false).sections;
    FilledIs(text, kept, bodies);
    LastPiece(text, kept, bodies);
    LastOfAll(Pieces(text, kept, bodies));
    EndIsLastSection(text);
    EndIsLastSection(Filled(text, kept, bodies));
    OldSection(text, |s| - 1);
  }

  // ----- the main result

  /** What a rebuild that swallows a heading leaves: acting again changes the file, unless the file ended in a heading. */
  lemma Unsettled(text: string, canon: seq<string>, bodies: Bodies)
    requires Canonical(canon, bodies) && Acts(text, canon) && !LastPresent(text, canon) && !Whole(text)
    ensures var r := Rebuild(text, canon, bodies);
      Rebuild(r, canon, bodies) == r <==> EndsInHeading(Lines(text))
  {
    var j := AfterLast(Headings(text), canon);
    RebuildFound(text, canon, bodies, j);
    FoundDecides(Rebuild(text, canon, bodies), canon, bodies, j, EndsInHeading(Lines(text)));
  }

  lemma RebuildFound(text: string, canon: seq<string>, bodies: Bodies, j: nat)
    requires Canonical(canon, bodies) && Acts(text, canon) && !Whole(text)
    requires j + 1 < |canon| && LastPresent(text, canon[..j + 1])
    requires forall i :: j < i < |canon| ==> canon[i] !in Headings(text)
    ensures IsFound(Headings(Rebuild(text, canon, bodies)), canon[..j + 1], canon[j + 1..], EndsInHeading(Lines(text)))
  {
    var kept := canon[..j + 1];
    KeptIsCanonical(canon, bodies, j + 1);
    FilledIs(text, kept, bodies);
    EndOfFilled(text, kept, bodies);
    FilledEnd(text, kept, bodies);
    RebuildIsFilled(text, canon, bodies, j + 1);
    Found(Filled(text, kept, bodies), kept, canon[j + 1..], bodies);
  }

  lemma FoundDecides(r: string, canon: seq<string>, bodies: Bodies, j: nat, heading: bool)
    requires Canonical(canon, bodies) && j + 1 < |canon|
    requires IsFound(Headings(r), canon[..j + 1], canon[j + 1..], heading)
    ensures Rebuild(r, canon, bodies) == r <==> heading
  {
    var found, kept, rest := Headings(r), canon[..j + 1], canon[j + 2..];
    assert canon[j + 1..][1..] == rest && kept[..j] == canon[..j];
    if heading {
      var g :| TakesTwo(g, canon[j], canon[j + 1]) && found == canon[..j] + ([g] + rest);
      OutOfOrder(canon[..j], g, canon[j], canon[j + 1], rest);
      assert canon == canon[..j] + ([canon[j]] + ([canon[j + 1]] + rest));
    } else if found == kept {
      GrowsBehind(r, canon, bodies, j + 1);
    } else {
      OneMissing(r, canon, bodies, j + 1);
    }
  }

  lemma OneMissing(r: string, canon: seq<string>, bodies: Bodies, k: nat)
    requires Canonical(canon, bodies) && 0 < k < |canon|
    requires Headings(r) == canon[..k] + canon[k + 1..] && Headings(r) != canon[..k]
    ensures Rebuild(r, canon, bodies) != r
  {
    WithoutOne(canon, k);
    LeftOut(canon[..k], canon[k], canon[k + 1..]);
    ActingChanges(r, canon, bodies);
  }

  lemma WithoutOne(canon: seq<string>, k: nat)
    requires 0 < k < |canon|
    ensures canon == canon[..k] + ([canon[k]] + canon[k + 1..])
    ensures var found := canon[..k] + canon[k + 1..];
      found == canon[..k] || (found != [] && found[|found| - 1] == canon[|canon| - 1])
  {
    var kept, rest := canon[..k], canon[k + 1..];
    if rest == [] {
      assert kept + rest == kept;
    } else {
      assert (kept + rest)[|kept + rest| - 1] == rest[|rest| - 1] == canon[|canon| - 1];
    }
  }

  /** A second rebuild changes nothing exactly when the first did nothing, or could complete the file, or ran into a
      heading at the end of it, whose longer name then keeps the fixer off. */
  lemma RebuildSettlesIff(text: string, canon: seq<string>, bodies: Bodies)
    requires Canonical(canon, bodies)
    ensures var r := Rebuild(text, canon, bodies);
      Rebuild(r, canon, bodies) == r
      <==> !Acts(text, canon) || LastPresent(text, canon) || Whole(text) || EndsInHeading(Lines(text))
  {
    if Acts(text, canon) {
      if LastPresent(text, canon) || Whole(text) {
        RebuildSettles(text, canon, bodies);
      } else {
        Unsettled(text, canon, bodies);
      }
    }
  }
}
