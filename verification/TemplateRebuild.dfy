/** The fixer's rebuild of a roadmap file, and exactly when it leaves the canonical headings
    (`scripts/fix_roadmap_drift.py`). */
module TemplateRebuild {
  import opened TextLines
  import opened Template
  import opened TemplateFix

  type Bodies = map<string, string>

  /** `rstrip("\n")`. */
  function StripNewlines(s: string): string {
    if s != "" && s[|s| - 1] == '\n' then StripNewlines(s[..|s| - 1]) else s
  }

  function LastIndexOf(names: seq<string>, name: string): (k: nat)
    requires name in names
    ensures k < |names| && names[k] == name && name !in names[k + 1..]
  {
    if names[|names| - 1] == name then |names| - 1
    else
      assert name in names[..|names| - 1];
      LastIndexOf(names[..|names| - 1], name)
  }

  /** A missing section, seeded with its body. */
  function NewSection(name: string, body: string): string {
    HEADING + name + "\n\n" + body + "\n\n"
  }

  function PieceText(name: string, names: seq<string>, sections: seq<seq<string>>, bodies: Bodies): string
    requires |names| == |sections| && name in bodies
  {
    if name in names then Join(sections[LastIndexOf(names, name)]) else NewSection(name, bodies[name])
  }

  function PieceTexts(canon: seq<string>, names: seq<string>, sections: seq<seq<string>>, bodies: Bodies): seq<string>
    requires |names| == |sections| && forall n :: n in canon ==> n in bodies
  {
    if canon == [] then []
    else [PieceText(canon[0], names, sections, bodies)] + PieceTexts(canon[1..], names, sections, bodies)
  }

  predicate NothingMissing(names: seq<string>, canon: seq<string>) {
    forall n | n in canon :: n in names
  }

  /** The fixer acts only on a non-empty, ordered, incomplete set of headings. */
  predicate Acts(text: string, canon: seq<string>) {
    var names := Headings(text);
    IsSubsequence(names, canon) && names != [] && !NothingMissing(names, canon)
  }

  function Rebuild(text: string, canon: seq<string>, bodies: Bodies): string
    requires forall n :: n in canon ==> n in bodies
  {
    var d := Cut(Lines(text), false);
    CutIs(Lines(text), false);
    if !Acts(text, canon) then text
    else Join(d.preamble) + StripNewlines(Join(PieceTexts(canon, Headings(text), d.sections, bodies))) + "\n"
  }

  // ----- the rebuild as it runs, over heading positions

  /** Where the sections begin, the first one at line `at`. */
  function Starts(names: seq<string>, sections: seq<seq<string>>, at: nat): (ps: seq<Heading>)
    requires |names| == |sections|
    ensures |ps| == |names| && (ps != [] ==> ps[0].at == at)
  {
    if sections == [] then []
    else [Heading(names[0], at)] + Starts(names[1..], sections[1..], at + |sections[0]|)
  }

  lemma {:induction false} PositionsAreStarts(lines: seq<string>, base: nat, inCode: bool)
    ensures var d := Cut(lines, inCode); var names := Names(lines, inCode);
      |names| == |d.sections| && Positions(lines, base, inCode) == Starts(names, d.sections, base + |d.preamble|)
  {
    if lines != [] {
      var code := if IsFence(lines[0]) then !inCode else inCode;
      PositionsAreStarts(lines[1..], base + 1, code);
      if !IsFence(lines[0]) && !inCode && IsHeading(lines[0]) {
        StartsCons(lines, base);
      }
    }
  }

  lemma StartsCons(lines: seq<string>, base: nat)
    requires lines != [] && !IsFence(lines[0]) && IsHeading(lines[0])
    requires var rest := Cut(lines[1..], false); var names := Names(lines[1..], false);
      |names| == |rest.sections|
      && Positions(lines[1..], base + 1, false) == Starts(names, rest.sections, base + 1 + |rest.preamble|)
    ensures var d := Cut(lines, false); var names := Names(lines, false);
      |names| == |d.sections| && Positions(lines, base, false) == Starts(names, d.sections, base + |d.preamble|)
  {
    var d, names := Cut(lines, false), Names(lines, false);
    var rest := Cut(lines[1..], false);
    assert d.sections[0] == [lines[0]] + rest.preamble && d.sections[1..] == rest.sections;
    assert names[1..] == Names(lines[1..], false);
  }

  /** Where section `k` ends. */
  function EndOf(ps: seq<Heading>, k: nat, end: nat): nat {
    if k + 1 < |ps| then ps[k + 1].at else end
  }

  lemma SliceAfter<T>(a: seq<T>, b: seq<T>, i: nat, j: nat)
    requires i <= j <= |b|
    ensures (a + b)[|a| + i..|a| + j] == b[i..j]
  {
  }

  ghost predicate IsSpan(names: seq<string>, sections: seq<seq<string>>, at: nat, k: nat)
    requires |names| == |sections| && k < |names|
  {
    var ps, flat := Starts(names, sections, at), Flatten(sections);
    var end := EndOf(ps, k, at + |flat|);
    && ps[k].name == names[k] && at <= ps[k].at <= end <= at + |flat|
    && flat[ps[k].at - at..end - at] == sections[k]
  }

  lemma SpanFirst(names: seq<string>, sections: seq<seq<string>>, at: nat)
    requires |names| == |sections| && names != []
    ensures IsSpan(names, sections, at, 0)
  {
    var tail := Flatten(sections[1..]);
    FirstSpan(sections[0], tail);
    assert |sections| == 1 ==> tail == [];
  }

  lemma SpanLater(names: seq<string>, sections: seq<seq<string>>, at: nat, k: nat)
    requires |names| == |sections| && 0 < k < |names|
    requires IsSpan(names[1..], sections[1..], at + |sections[0]|, k - 1)
    ensures IsSpan(names, sections, at, k)
  {
    var tail, next := Flatten(sections[1..]), at + |sections[0]|;
    var qs := Starts(names[1..], sections[1..], next);
    SliceAfter(sections[0], tail, qs[k - 1].at - next, EndOf(qs, k - 1, next + |tail|) - next);
  }

  lemma {:induction false} SpanAt(names: seq<string>, sections: seq<seq<string>>, at: nat, k: nat)
    requires |names| == |sections| && k < |names|
    ensures IsSpan(names, sections, at, k)
  {
    if k > 0 {
      SpanAt(names[1..], sections[1..], at + |sections[0]|, k - 1);
      SpanLater(names, sections, at, k);
    } else {
      SpanFirst(names, sections, at);
    }
  }

  lemma FirstSpan<T>(a: seq<T>, b: seq<T>)
    ensures (a + b)[0..|a|] == a
  {
  }

  /** A heading's span, up to the next heading or the end. */
  lemma SpanIsSection(lines: seq<string>, k: nat)
    requires k < |Positions(lines, 0, false)|
    ensures var ps := Positions(lines, 0, false); var d := Cut(lines, false);
      var end := EndOf(ps, k, |lines|);
      && |ps| == |Names(lines, false)| == |d.sections| && ps[k].name == Names(lines, false)[k]
      && ps[k].at <= end <= |lines| && lines[ps[k].at..end] == d.sections[k]
      && ps[0].at <= |lines| && lines[..ps[0].at] == d.preamble
  {
    var d, names := Cut(lines, false), Names(lines, false);
    PositionsAreStarts(lines, 0, false);
    PreambleAndSections(lines);
    SpanAt(names, d.sections, |d.preamble|, k);
    var ps := Starts(names, d.sections, |d.preamble|);
    SliceAfter(d.preamble, Flatten(d.sections), ps[k].at - |d.preamble|, EndOf(ps, k, |lines|) - |d.preamble|);
    FirstSpan(d.preamble, Flatten(d.sections));
  }

  lemma PreambleAndSections(lines: seq<string>)
    ensures lines == Cut(lines, false).preamble + Flatten(Cut(lines, false).sections)
  {
    CutIs(lines, false);
  }

  /** The spans collected so far: the last section of each name. */
  ghost predicate Spans(spans: map<string, (nat, nat)>, names: seq<string>, sections: seq<seq<string>>,
                        lines: seq<string>)
    requires |names| <= |sections|
  {
    forall n :: (n in spans <==> n in names) && (n in spans ==> Spanned(spans[n], lines, sections[LastIndexOf(names, n)]))
  }

  ghost predicate Spanned(span: (nat, nat), lines: seq<string>, section: seq<string>) {
    span.0 <= span.1 <= |lines| && lines[span.0..span.1] == section
  }

  lemma SpansGrow(spans: map<string, (nat, nat)>, names: seq<string>, sections: seq<seq<string>>,
                  lines: seq<string>, k: nat, span: (nat, nat))
    requires k < |names| <= |sections| && Spans(spans, names[..k], sections, lines)
    requires Spanned(span, lines, sections[k])
    ensures Spans(spans[names[k] := span], names[..k + 1], sections, lines)
  {
    assert names[..k + 1][..k] == names[..k];
    assert names[..k + 1] == names[..k] + [names[k]];
  }

  /** `_rebuild_sections`. */
  method RebuildSections(text: string, canon: seq<string>, bodies: Bodies) returns (r: string)
    requires forall n :: n in canon ==> n in bodies
    ensures r == Rebuild(text, canon, bodies)
  {
    var lines := Lines(text);
    var positions := HeadingPositions(text);
    var current := Named(positions);
    ghost var sections := Cut(lines, false).sections;
    NamedIsNames(lines, 0, false);
    CutIs(lines, false);
    if !IsSubsequence(current, canon) || NothingMissing(current, canon) || current == [] {
      return text;
    }
    var spans: map<string, (nat, nat)> := map[];
    for k := 0 to |positions|
      invariant Spans(spans, current[..k], sections, lines)
    {
      SpanIsSection(lines, k);
      var end := EndOf(positions, k, |lines|);
      SpansGrow(spans, current, sections, lines, k, (positions[k].at, end));
      spans := spans[positions[k].name := (positions[k].at, end)];
    }
    assert current[..|current|] == current;
    SpanIsSection(lines, 0);
    var preamble := Join(lines[..positions[0].at]);
    var rebuilt := RebuiltTexts(canon, spans, lines, bodies, current, sections);
    r := preamble + StripNewlines(Join(rebuilt)) + "\n";
  }

  function Named(positions: seq<Heading>): (names: seq<string>)
    ensures |names| == |positions|
    ensures forall k :: 0 <= k < |names| ==> names[k] == positions[k].name
  {
    if positions == [] then [] else [positions[0].name] + Named(positions[1..])
  }

  lemma {:induction false} NamedIsNames(lines: seq<string>, base: nat, inCode: bool)
    ensures Named(Positions(lines, base, inCode)) == Names(lines, inCode)
  {
    if lines != [] {
      NamedIsNames(lines[1..], base + 1, if IsFence(lines[0]) then !inCode else inCode);
      var ps := Positions(lines, base, inCode);
      assert !IsFence(lines[0]) && !inCode && IsHeading(lines[0]) ==> ps[1..] == Positions(lines[1..], base + 1, inCode);
    }
  }

  lemma OneMore<T>(a: seq<T>, x: T, b: seq<T>)
    ensures a + ([x] + b) == (a + [x]) + b
  {
  }

  /** The present sections from their spans, the missing ones new. */
  method RebuiltTexts(canon: seq<string>, spans: map<string, (nat, nat)>, lines: seq<string>, bodies: Bodies,
                      ghost names: seq<string>, ghost sections: seq<seq<string>>)
    returns (rebuilt: seq<string>)
    requires |names| == |sections| && Spans(spans, names, sections, lines)
    requires forall n :: n in canon ==> n in bodies
    ensures rebuilt == PieceTexts(canon, names, sections, bodies)
  {
    rebuilt := [];
    for i := 0 to |canon|
      invariant rebuilt + PieceTexts(canon[i..], names, sections, bodies) == PieceTexts(canon, names, sections, bodies)
    {
      var name := canon[i];
      assert canon[i..][1..] == canon[i + 1..];
      var piece;
      if name in spans {
        assert Spanned(spans[name], lines, sections[LastIndexOf(names, name)]);
        piece := Join(lines[spans[name].0..spans[name].1]);
      } else {
        piece := NewSection(name, bodies[name]);
      }
      assert piece == PieceText(name, names, sections, bodies);
      OneMore(rebuilt, piece, PieceTexts(canon[i + 1..], names, sections, bodies));
      rebuilt := rebuilt + [piece];
    }
  }
}
