/** The whole register check of one file (`find_candidates` of `scripts/ja_register_check.py`): scan, split,
    strip, judge. What the link patterns leave of a sentence, and the judgement of the analyzer on its core, are
    arbitrary functions. */
module RegisterCheck {
  import opened TextLines
  import opened ProseScanner
  import opened Sentences
  import ProseFacts
  import ProseLines
  import SentenceFacts
  import Trailing

  datatype Analyzer = Analyzer(
    plain: string -> string,    // the sentence without images, links and tags
    flagged: string -> bool)    // Japanese, and not in the polite register

  predicate Candidly(a: Analyzer, c: Candidate) {
    a.flagged(Trailing.Core(a.plain(c.sentence)))
  }

  function Flagged(a: Analyzer, sentences: seq<Candidate>): seq<Candidate> {
    if sentences == [] then []
    else (if Candidly(a, sentences[0]) then [sentences[0]] else []) + Flagged(a, sentences[1..])
  }

  predicate Numbered(b: Block) {
    |b.lineOf| == |b.text|
  }

  function Found(a: Analyzer, blocks: seq<Block>): seq<Candidate>
    requires forall b :: b in blocks ==> Numbered(b)
  {
    if blocks == [] then []
    else
      assert Numbered(blocks[0]);
      Flagged(a, SentencesOf(blocks[0], IsClosed(blocks[0].text, |blocks[0].text|))) + Found(a, blocks[1..])
  }

  lemma BlocksAreNumbered(m: Markup, lines: seq<string>)
    ensures forall b :: b in ProseBlocks(m, lines) ==> Numbered(b)
  {
    ProseLines.BlocksKnowTheirLines(m, lines);
    var blocks := ProseBlocks(m, lines);
    forall b | b in blocks
      ensures Numbered(b)
    {
      var i :| 0 <= i < |blocks| && blocks[i] == b;
      assert ProseLines.Placed(blocks[i], |lines| + 1, lines);
    }
  }

  function Candidates(m: Markup, a: Analyzer, lines: seq<string>): seq<Candidate> {
    BlocksAreNumbered(m, lines);
    Found(a, ProseBlocks(m, lines))
  }

  lemma FlagOne(a: Analyzer, sentences: seq<Candidate>, i: nat, found: seq<Candidate>)
    requires i < |sentences|
    ensures found + Flagged(a, sentences[i..])
         == (if Candidly(a, sentences[i]) then found + [sentences[i]] else found) + Flagged(a, sentences[i + 1..])
  {
    assert sentences[i..][1..] == sentences[i + 1..];
    assert found + ([sentences[i]] + Flagged(a, sentences[i + 1..]))
        == (found + [sentences[i]]) + Flagged(a, sentences[i + 1..]);
    assert [] + Flagged(a, sentences[i + 1..]) == Flagged(a, sentences[i + 1..]);
  }

  method FlagSentences(a: Analyzer, sentences: seq<Candidate>) returns (found: seq<Candidate>)
    ensures found == Flagged(a, sentences)
  {
    found := [];
    for i := 0 to |sentences|
      invariant found + Flagged(a, sentences[i..]) == Flagged(a, sentences)
    {
      FlagOne(a, sentences, i, found);
      var core := Trailing.StripTrailing(a.plain(sentences[i].sentence));
      if a.flagged(core) {
        found := found + [sentences[i]];
      }
    }
  }

  lemma FoundOne(a: Analyzer, blocks: seq<Block>, i: nat, found: seq<Candidate>)
    requires i < |blocks| && forall b :: b in blocks ==> Numbered(b)
    ensures Numbered(blocks[i])
    ensures found + Found(a, blocks[i..])
         == (found + Flagged(a, SentencesOf(blocks[i], IsClosed(blocks[i].text, |blocks[i].text|)))) + Found(a, blocks[i + 1..])
  {
    assert Numbered(blocks[i]) && blocks[i..][1..] == blocks[i + 1..];
    Associate(found, Flagged(a, SentencesOf(blocks[i], IsClosed(blocks[i].text, |blocks[i].text|))), Found(a, blocks[i + 1..]));
  }

  /** `find_candidates`. */
  method FindCandidates(m: Markup, a: Analyzer, lines: seq<string>) returns (found: seq<Candidate>)
    ensures found == Candidates(m, a, lines)
  {
    var blocks := ScanLines(m, lines);
    BlocksAreNumbered(m, lines);
    found := [];
    for i := 0 to |blocks|
      invariant found + Found(a, blocks[i..]) == Candidates(m, a, lines)
    {
      assert Numbered(blocks[i]);
      FoundOne(a, blocks, i, found);
      var sentences := SplitSentences(blocks[i]);
      var flagged := FlagSentences(a, sentences);
      found := found + flagged;
    }
  }

  // ----- what a candidate is

  lemma {:induction false} FlaggedIff(a: Analyzer, sentences: seq<Candidate>, c: Candidate)
    ensures c in Flagged(a, sentences) <==> c in sentences && Candidly(a, c)
  {
    if sentences != [] {
      FlaggedIff(a, sentences[1..], c);
      assert sentences == [sentences[0]] + sentences[1..];
    }
  }

  lemma {:induction false} FoundIn(a: Analyzer, blocks: seq<Block>, c: Candidate)
    requires forall b :: b in blocks ==> Numbered(b)
    ensures c in Found(a, blocks)
       <==> Candidly(a, c) && exists b :: b in blocks && c in SentencesOf(b, IsClosed(b.text, |b.text|))
  {
    if blocks != [] {
      var b := blocks[0];
      assert Numbered(b);
      FlaggedIff(a, SentencesOf(b, IsClosed(b.text, |b.text|)), c);
      FoundIn(a, blocks[1..], c);
      assert blocks == [b] + blocks[1..];
    }
  }

  lemma {:induction false} ChunkIn(b: Block, cuts: seq<nat>, start: nat, c: Candidate) returns (from: nat, to: nat)
    requires Numbered(b) && Ascending(cuts, start, |b.text|) && c in Chunks(b, cuts, start)
    ensures from <= to <= |b.text| && Emit(b, from, to) == [c]
    decreases cuts
  {
    AscendingEnds(cuts, start, |b.text|);
    if cuts == [] {
      from, to := start, |b.text|;
    } else if c in Emit(b, start, cuts[0]) {
      from, to := start, cuts[0];
    } else {
      from, to := ChunkIn(b, cuts[1..], cuts[0], c);
    }
  }

  /** The candidates are the flagged sentences of the blocks. */
  lemma CandidateIff(m: Markup, a: Analyzer, lines: seq<string>, c: Candidate)
    ensures c in Candidates(m, a, lines)
       <==> Candidly(a, c) && exists b :: b in ProseBlocks(m, lines) && IsSentence(b, c)
  {
    BlocksAreNumbered(m, lines);
    FoundIn(a, ProseBlocks(m, lines), c);
  }

  predicate IsSentence(b: Block, c: Candidate) {
    Numbered(b) && c in SentencesOf(b, IsClosed(b.text, |b.text|))
  }

  lemma CandidateChunk(m: Markup, a: Analyzer, lines: seq<string>, c: Candidate)
    returns (b: Block, from: nat, to: nat)
    requires c in Candidates(m, a, lines)
    ensures b in ProseBlocks(m, lines) && Numbered(b) && from <= to <= |b.text| && Emit(b, from, to) == [c]
  {
    BlocksAreNumbered(m, lines);
    FoundIn(a, ProseBlocks(m, lines), c);
    b :| b in ProseBlocks(m, lines) && c in SentencesOf(b, IsClosed(b.text, |b.text|));
    CutsAscend(b.text, IsClosed(b.text, |b.text|), 0, 0);
    from, to := ChunkIn(b, Cuts(b.text, IsClosed(b.text, |b.text|), 0), 0, c);
  }

  /** A candidate's line holds the first character of its sentence. */
  lemma CandidateHasItsLine(m: Markup, a: Analyzer, lines: seq<string>, c: Candidate)
    requires c in Candidates(m, a, lines)
    ensures HasLine(c, lines)
  {
    var b, from, to := CandidateChunk(m, a, lines, c);
    EmitHasItsLine(m, lines, b, from, to, c);
  }

  lemma EmitHasItsLine(m: Markup, lines: seq<string>, b: Block, from: nat, to: nat, c: Candidate)
    requires b in ProseBlocks(m, lines) && Numbered(b) && from <= to <= |b.text| && Emit(b, from, to) == [c]
    ensures HasLine(c, lines)
  {
    var k := EmitStart(b, from, to, c);
    SourceOf(m, lines, b, k);
    StartsThere(c, lines, b.text[k], b.lineOf[k]);
  }

  lemma StartsThere(c: Candidate, lines: seq<string>, first: char, line: nat)
    requires c.sentence != "" && c.sentence[0] == first && c.line == line
    requires 1 <= line <= |lines| && first in lines[line - 1]
    ensures HasLine(c, lines)
  {
  }

  predicate HasLine(c: Candidate, lines: seq<string>) {
    c.sentence != "" && 1 <= c.line <= |lines| && c.sentence[0] in lines[c.line - 1]
  }

  lemma EmitStart(b: Block, from: nat, to: nat, c: Candidate) returns (k: nat)
    requires Numbered(b) && from <= to <= |b.text| && Emit(b, from, to) == [c]
    ensures c.sentence != "" && k < |b.text| && c.sentence[0] == b.text[k] && c.line == b.lineOf[k]
    ensures !IsSpace(b.text[k])
  {
    k := SentenceFacts.EmitPlaces(b, from, to);
    assert b.text[k..k + |c.sentence|][0] == b.text[k];
  }

  lemma SourceOf(m: Markup, lines: seq<string>, b: Block, k: nat)
    requires b in ProseBlocks(m, lines) && k < |b.text| && !IsSpace(b.text[k])
    ensures k < |b.lineOf| && 1 <= b.lineOf[k] <= |lines| && b.text[k] in lines[b.lineOf[k] - 1]
  {
    ProseLines.BlocksKnowTheirLines(m, lines);
    var blocks := ProseBlocks(m, lines);
    var i :| 0 <= i < |blocks| && blocks[i] == b;
    assert ProseLines.Placed(blocks[i], |lines| + 1, lines);
    assert ProseLines.Sourced(b.text[k], b.lineOf[k], |lines| + 1, lines);
  }

  /** Files that differ only in fenced code and in comments have the same candidates. */
  lemma CandidatesIgnoreVerbatim(m: Markup, a: Analyzer, x: seq<string>, y: seq<string>)
    requires ProseFacts.SameFile(ProseFacts.Outside, x, y)
    ensures Candidates(m, a, x) == Candidates(m, a, y)
  {
    ProseFacts.VerbatimDoesNotInterfere(m, x, y);
  }
}
