/** The roadmap template's headings: the fence-aware scan of `scripts/check_roadmap_format.py` and the
    fixer of `scripts/fix_roadmap_drift.py` that fills in missing sections. */
module Template {
  import opened TextLines

  const FENCE := "```"
  const HEADING := "## "

  predicate IsFence(l: string) {
    StartsWith(l, FENCE)
  }

  predicate IsHeading(l: string) {
    StartsWith(l, HEADING)
  }

  function NameOf(l: string): string
    requires IsHeading(l)
  {
    Strip(l[3..])
  }

  datatype Heading = Heading(name: string, at: nat)

  /** The headings outside fenced code, with their line index; `base` is the index of the first line. */
  function Positions(lines: seq<string>, base: nat, inCode: bool): seq<Heading> {
    if lines == [] then []
    else if IsFence(lines[0]) then Positions(lines[1..], base + 1, !inCode)
    else if !inCode && IsHeading(lines[0]) then
      [Heading(NameOf(lines[0]), base)] + Positions(lines[1..], base + 1, inCode)
    else Positions(lines[1..], base + 1, inCode)
  }

  /** Whether a fence is open after the lines. */
  function InCode(lines: seq<string>, inCode: bool): bool {
    if lines == [] then inCode else InCode(lines[1..], if IsFence(lines[0]) then !inCode else inCode)
  }

  function Names(lines: seq<string>, inCode: bool): seq<string> {
    if lines == [] then []
    else if IsFence(lines[0]) then Names(lines[1..], !inCode)
    else if !inCode && IsHeading(lines[0]) then [NameOf(lines[0])] + Names(lines[1..], inCode)
    else Names(lines[1..], inCode)
  }

  function Headings(text: string): seq<string> {
    Names(Lines(text), false)
  }

  /** `heading_positions`. */
  method HeadingPositions(text: string) returns (positions: seq<Heading>)
    ensures positions == Positions(Lines(text), 0, false)
  {
    var lines := Lines(text);
    positions := [];
    var inCode := false;
    for i := 0 to |lines|
      invariant positions + Positions(lines[i..], i, inCode) == Positions(lines, 0, false)
    {
      assert lines[i..][1..] == lines[i + 1..];
      if IsFence(lines[i]) {
        inCode := !inCode;
      } else if !inCode && IsHeading(lines[i]) {
        positions := positions + [Heading(NameOf(lines[i]), i)];
      }
    }
  }

  /** `is_subsequence`: the iterator over `order` is consumed as each field is sought. */
  predicate IsSubsequence(present: seq<string>, order: seq<string>) {
    if present == [] then true
    else if order == [] then false
    else if present[0] == order[0] then IsSubsequence(present[1..], order[1..])
    else IsSubsequence(present, order[1..])
  }

  // ----- what the scan finds

  /** How many of the first `n` lines begin with three backticks. */
  function Fences(lines: seq<string>, n: nat): nat
    requires n <= |lines|
  {
    if n == 0 then 0
    else Fences(lines, n - 1) + if |lines[n - 1]| >= 3 && lines[n - 1][..3] == "```" then 1 else 0
  }

  /** A line that begins with two hashes and a space, outside fences. */
  predicate HeadingHere(lines: seq<string>, k: nat) {
    k < |lines| && Fences(lines, k) % 2 == 0 && |lines[k]| >= 3 && lines[k][..3] == "## "
  }

  /** Exactly these lines are found, each with its name. */
  lemma PositionsIff(lines: seq<string>, h: Heading)
    ensures h in Positions(lines, 0, false) <==> HeadingHere(lines, h.at) && h.name == Strip(lines[h.at][3..])
  {
    assert lines[0..] == lines;
    PositionsFrom(lines, 0, false, h);
  }

  lemma {:induction false} PositionsFrom(lines: seq<string>, n: nat, inCode: bool, h: Heading)
    requires n <= |lines| && (inCode <==> Fences(lines, n) % 2 == 1)
    ensures h in Positions(lines[n..], n, inCode)
       <==> n <= h.at && HeadingHere(lines, h.at) && h.name == Strip(lines[h.at][3..])
    decreases |lines| - n
  {
    if n < |lines| {
      var l := lines[n];
      assert lines[n..][0] == l && lines[n..][1..] == lines[n + 1..];
      KindsDiffer(l);
      PositionsFrom(lines, n + 1, if IsFence(l) then !inCode else inCode, h);
    }
  }

  lemma KindsDiffer(l: string)
    ensures IsFence(l) <==> |l| >= 3 && l[..3] == "```"
    ensures IsHeading(l) <==> |l| >= 3 && l[..3] == "## "
    ensures IsFence(l) ==> !IsHeading(l)
  {
    assert FENCE[0] != HEADING[0];
    if IsFence(l) {
      assert l[..3][0] == FENCE[0];
    }
  }

  /** They come in order. */
  lemma {:induction false} PositionsAscend(lines: seq<string>, base: nat, inCode: bool)
    ensures forall k :: 0 <= k < |Positions(lines, base, inCode)| ==> Positions(lines, base, inCode)[k].at >= base
    ensures forall j, k :: 0 <= j < k < |Positions(lines, base, inCode)| ==>
      Positions(lines, base, inCode)[j].at < Positions(lines, base, inCode)[k].at
  {
    if lines != [] {
      PositionsAscend(lines[1..], base + 1, if IsFence(lines[0]) then !inCode else inCode);
    }
  }

  /** The fields are found in the order, each at a place of its own behind the one before. */
  ghost predicate FoundAt(present: seq<string>, order: seq<string>, places: seq<nat>) {
    && |places| == |present|
    && (forall k :: 0 <= k < |present| ==> places[k] < |order| && order[places[k]] == present[k])
    && (forall j, k :: 0 <= j < k < |present| ==> places[j] < places[k])
  }

  lemma SubsequenceIff(present: seq<string>, order: seq<string>)
    ensures IsSubsequence(present, order) <==> exists places :: FoundAt(present, order, places)
  {
    if IsSubsequence(present, order) {
      var places := SubsequencePlaces(present, order);
    }
    if places :| FoundAt(present, order, places) {
      PlacesAreSubsequence(present, order, places);
    }
  }

  lemma {:induction false} SubsequencePlaces(present: seq<string>, order: seq<string>) returns (places: seq<nat>)
    requires IsSubsequence(present, order)
    ensures FoundAt(present, order, places)
  {
    if present == [] {
      places := [];
    } else if present[0] == order[0] {
      var rest := SubsequencePlaces(present[1..], order[1..]);
      places := [0] + Later(rest);
    } else {
      var rest := SubsequencePlaces(present, order[1..]);
      places := Later(rest);
    }
  }

  function Later(places: seq<nat>): (r: seq<nat>)
    ensures |r| == |places| && forall k :: 0 <= k < |r| ==> r[k] == places[k] + 1
  {
    seq(|places|, k requires 0 <= k < |places| => places[k] + 1)
  }

  lemma {:induction false} PlacesAreSubsequence(present: seq<string>, order: seq<string>, places: seq<nat>)
    requires FoundAt(present, order, places)
    ensures IsSubsequence(present, order)
    decreases |order|
  {
    if present != [] {
      assert places[0] < |order|;
      if present[0] == order[0] {
        FirstPlace(present, order, places);
        PlacesAreSubsequence(present[1..], order[1..], Earlier(places[1..]));
      } else {
        LaterPlaces(present, order, places);
        PlacesAreSubsequence(present, order[1..], Earlier(places));
      }
    }
  }

  lemma FirstPlace(present: seq<string>, order: seq<string>, places: seq<nat>)
    requires FoundAt(present, order, places) && present != [] && order != []
    ensures forall k :: 0 <= k < |places[1..]| ==> places[1..][k] > 0
    ensures FoundAt(present[1..], order[1..], Earlier(places[1..]))
  {
    assert forall k :: 0 <= k < |places[1..]| ==> places[1..][k] == places[k + 1] > places[0];
  }

  lemma LaterPlaces(present: seq<string>, order: seq<string>, places: seq<nat>)
    requires FoundAt(present, order, places) && present != [] && order != [] && present[0] != order[0]
    ensures forall k :: 0 <= k < |places| ==> places[k] > 0
    ensures FoundAt(present, order[1..], Earlier(places))
  {
    assert places[0] > 0;
  }

  function Earlier(places: seq<nat>): (r: seq<nat>)
    requires forall k :: 0 <= k < |places| ==> places[k] > 0
    ensures |r| == |places| && forall k :: 0 <= k < |r| ==> r[k] == places[k] - 1
  {
    seq(|places|, k requires 0 <= k < |places| => places[k] - 1)
  }

  // ----- the scan over parts of a text

  lemma {:induction false} NamesConcat(a: seq<string>, b: seq<string>, inCode: bool)
    ensures Names(a + b, inCode) == Names(a, inCode) + Names(b, InCode(a, inCode))
    ensures InCode(a + b, inCode) == InCode(b, InCode(a, inCode))
  {
    if a == [] {
      assert a + b == b;
    } else {
      assert (a + b)[1..] == a[1..] + b;
      NamesConcat(a[1..], b, if IsFence(a[0]) then !inCode else inCode);
    }
  }

  /** Lines that neither open code nor head a section. */
  predicate Plain(lines: seq<string>) {
    forall i :: 0 <= i < |lines| ==> !IsFence(lines[i]) && !IsHeading(lines[i])
  }

  lemma {:induction false} PlainIsQuiet(lines: seq<string>, inCode: bool)
    requires Plain(lines)
    ensures Names(lines, inCode) == [] && InCode(lines, inCode) == inCode
  {
    if lines != [] {
      PlainIsQuiet(lines[1..], inCode);
    }
  }

  /** In code there is no heading, and a plain line changes nothing. */
  lemma {:induction false} NoHeadingsInCode(lines: seq<string>)
    requires forall i :: 0 <= i < |lines| ==> !IsFence(lines[i])
    ensures Names(lines, true) == [] && InCode(lines, true)
  {
    if lines != [] {
      NoHeadingsInCode(lines[1..]);
    }
  }

  // ----- one more newline at the end

  lemma {:induction false} StripSpace(s: string, c: char)
    requires IsSpace(c)
    ensures Strip(s + [c]) == Strip(s)
    decreases |s|
  {
    var t := s + [c];
    if s == "" {
      assert StripLeft(t) == StripLeft(t[1..]) == "";
    } else if IsSpace(s[0]) {
      assert t[1..] == s[1..] + [c];
      StripSpace(s[1..], c);
    } else {
      assert StripLeft(t) == t && StripLeft(s) == s;
      assert t[..|t| - 1] == s;
    }
  }

  /** A newline that ends or extends a line leaves its kind and its name. */
  lemma NewlineKeepsKind(l: string)
    ensures IsFence(l + "\n") == IsFence(l) && IsHeading(l + "\n") == IsHeading(l)
    ensures IsHeading(l) ==> NameOf(l + "\n") == NameOf(l)
  {
    var t := l + "\n";
    KindAfter(l, "\n");
    if IsHeading(l) {
      assert t[3..] == l[3..] + "\n";
      StripSpace(l[3..], '\n');
    }
  }

  /** A line keeps its kind when text that cannot continue a marker is added. */
  lemma KindAfter(l: string, t: string)
    requires t != "" && t[0] != '`' && t[0] != ' '
    requires t[0] == '#' ==> l != "" && |t| > 1 && t[1] == '#'
    ensures IsFence(l + t) == IsFence(l) && IsHeading(l + t) == IsHeading(l)
  {
    var lt := l + t;
    if |l| >= 3 {
      assert lt[..3] == l[..3];
    } else {
      assert lt[|l|] == t[0] && (|t| > 1 ==> lt[|l| + 1] == t[1]);
      assert |lt| >= 3 ==> lt[..3][|l|] == t[0] && (|l| == 1 ==> lt[..3][2] == t[1]);
      assert FENCE[|l|] == '`' && HEADING[0] == HEADING[1] == '#' && HEADING[2] == ' ';
    }
  }

  /** Ending a text with a newline changes no heading. */
  lemma {:induction false} NewlineKeepsNames(s: string, inCode: bool)
    ensures Names(Lines(s + "\n"), inCode) == Names(Lines(s), inCode)
    ensures InCode(Lines(s + "\n"), inCode) == InCode(Lines(s), inCode)
    decreases |s|
  {
    if s == "" {
      BlankLine(inCode);
    } else {
      var n := LineEnd(s);
      var head, tail := s[..n], s[n..];
      assert s + "\n" == head + (tail + "\n");
      LineEndIs(s);
      NamesConcat([head], Lines(tail), inCode);
      if tail != "" || (Terminated(head) && head[|head| - 1] != '\r') {
        assert tail != "" ==> (tail + "\n")[0] == tail[0];
        LinesCons(head, tail + "\n");
        NamesConcat([head], Lines(tail + "\n"), inCode);
        NewlineKeepsNames(tail, InCode([head], inCode));
      } else {
        assert head == s && Lines(s) == [s];
        LastLineNewline(s);
        NewlineKeepsKind(s);
      }
    }
  }

  lemma BlankLine(inCode: bool)
    ensures "" + "\n" == "\n" && Lines("\n") == ["\n"]
    ensures Names(["\n"], inCode) == [] && InCode(["\n"], inCode) == inCode
  {
    LinesCons("\n", "");
    assert "\n" + "" == "\n";
    PlainIsQuiet(["\n"], inCode);
  }

  /** A last line takes the newline into itself when nothing, or a bare `\r`, ends it. */
  lemma {:induction false} LastLineNewline(l: string)
    requires IsLine(l) && (!Terminated(l) || (l[|l| - 1] == '\r'))
    ensures Lines(l + "\n") == [l + "\n"]
  {
    LineEndNewline(l);
    LinesCons(l + "\n", "");
    assert (l + "\n") + "" == l + "\n";
  }

  lemma {:induction false} LineEndNewline(l: string)
    requires IsLine(l) && (!Terminated(l) || (l[|l| - 1] == '\r'))
    ensures IsLine(l + "\n")
  {
    if |l| > 1 {
      assert (l + "\n")[1..] == l[1..] + "\n";
      LineEndNewline(l[1..]);
    }
  }
}
