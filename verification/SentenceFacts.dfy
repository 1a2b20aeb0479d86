/** What the sentence splitter guarantees. */
module SentenceFacts {
  import opened TextLines
  import opened ProseScanner
  import opened Sentences

  // ----- where the cuts are

  /** A chunk ends behind a mark outside brackets and code, and nowhere else but at the end. */
  lemma {:induction false} CutIff(text: string, track: bool, i: nat, p: nat)
    requires i <= |text|
    ensures p in Cuts(text, track, i)
       <==> exists k :: i <= k < |text| && IsMark(text, track, k) && p == EmphasisEnd(text, k + 1)
    decreases |text| - i
  {
    if i < |text| {
      CutIff(text, track, i + 1, p);
      if IsMark(text, track, i) {
        assert Cuts(text, track, i) == [EmphasisEnd(text, i + 1)] + Cuts(text, track, i + 1);
      }
    }
  }

  /** Every cut is itself outside brackets and code. */
  lemma CutsAreOutside(text: string, track: bool, p: nat)
    requires p in Cuts(text, track, 0)
    ensures p <= |text| && Before(text, track, p) == OUTSIDE
  {
    CutIff(text, track, 0, p);
    var k :| 0 <= k < |text| && IsMark(text, track, k) && p == EmphasisEnd(text, k + 1);
    PlainAdvance(text, track, k + 1, p);
  }

  lemma {:induction false} PlainAdvance(text: string, track: bool, i: nat, p: nat)
    requires 0 < i <= p <= |text| && Before(text, track, i - 1) == OUTSIDE && text[i - 1] in TERMINALS
    requires forall k :: i <= k < p ==> text[k] in "*_"
    ensures Before(text, track, p) == OUTSIDE
  {
    if i < p {
      PlainAdvance(text, track, i, p - 1);
    }
  }

  /** Without tracking every terminal mark cuts. */
  lemma EveryMarkCuts(text: string, i: nat)
    requires i < |text|
    ensures text[i] in TERMINALS <==> IsMark(text, false, i)
    ensures text[i] in TERMINALS ==> EmphasisEnd(text, i + 1) in Cuts(text, false, 0)
  {
    CutIff(text, false, 0, EmphasisEnd(text, i + 1));
  }

  // ----- what being outside means

  /** A mark cuts exactly outside code, with no stretch before it that opens more brackets than it closes. */
  lemma MarkIff(text: string, i: nat)
    requires i < |text|
    ensures IsMark(text, true, i)
       <==> text[i] in TERMINALS && Ticks(text, i) % 2 == 0 && forall k :: 0 <= k <= i ==> Balance(text, k, i) <= 0
  {
    var j := DepthIsWorst(text, i);
    if forall k :: 0 <= k <= i ==> Balance(text, k, i) <= 0 {
      assert Balance(text, j, i) <= 0;
    }
  }

  /** A mark ends a sentence outside code and brackets; where the block leaves either open, every mark does. */
  ghost predicate EndsSentence(text: string, i: nat) {
    && i < |text| && (text[i] == '。' || text[i] == '．' || text[i] == '！' || text[i] == '？')
    && (IsClosed(text, |text|) ==> IsClosed(text, i))
  }

  lemma EndsIff(text: string, i: nat)
    ensures EndsSentence(text, i) <==> IsMark(text, IsClosed(text, |text|), i)
  {
    if i < |text| {
      ClosedIff(text, i);
    }
  }

  /** Chunks end behind these marks, and behind no others. */
  ghost predicate IsCut(text: string, p: nat) {
    exists k: nat :: EndsSentence(text, k) && p == EmphasisEnd(text, k + 1)
  }

  lemma IsCutIff(text: string, p: nat)
    ensures IsCut(text, p) <==> p in Cuts(text, IsClosed(text, |text|), 0)
  {
    CutIff(text, IsClosed(text, |text|), 0, p);
    forall k: nat
      ensures EndsSentence(text, k) <==> IsMark(text, IsClosed(text, |text|), k)
    {
      EndsIff(text, k);
    }
  }

  // ----- the sentences of a block

  /** A stretch between two ends of sentences with none inside. */
  ghost predicate IsChunk(text: string, start: nat, end: nat) {
    && start <= end <= |text| && (start == 0 || IsCut(text, start)) && (end == |text| || IsCut(text, end))
    && forall p :: start < p < end ==> !IsCut(text, p)
  }

  /** The sentences that `split_sentences` gives are those of the chunks, and each chunk gives its own. */
  lemma SentenceIff(b: Block, c: Candidate)
    requires |b.lineOf| == |b.text|
    ensures c in SentencesOf(b, IsClosed(b.text, |b.text|))
       <==> exists start, end :: IsChunk(b.text, start, end) && c in Emit(b, start, end)
  {
    var track := IsClosed(b.text, |b.text|);
    var cuts := Cuts(b.text, track, 0);
    CutsAscend(b.text, track, 0, 0);
    InChunks(b, cuts, 0, c);
    forall p
      ensures IsCut(b.text, p) <==> p in cuts
    {
      IsCutIff(b.text, p);
    }
    forall start: nat, end: nat
      ensures IsChunk(b.text, start, end) <==> Neighbours(cuts, 0, |b.text|, start, end)
    {
    }
  }

  /** Two bounds in a row. */
  ghost predicate Neighbours(cuts: seq<nat>, from: nat, n: nat, start: nat, end: nat) {
    && from <= start <= end <= n && (start == from || start in cuts) && (end == n || end in cuts)
    && forall p :: start < p < end ==> p !in cuts
  }

  lemma {:induction false} InChunks(b: Block, cuts: seq<nat>, from: nat, c: Candidate)
    requires |b.lineOf| == |b.text| && Ascending(cuts, from, |b.text|)
    ensures c in Chunks(b, cuts, from)
       <==> exists start, end :: Neighbours(cuts, from, |b.text|, start, end) && c in Emit(b, start, end)
    decreases cuts
  {
    AscendingEnds(cuts, from, |b.text|);
    if cuts == [] {
      OnlyChunk(b, from, c);
    } else {
      InChunks(b, cuts[1..], cuts[0], c);
      AscendingEnds(cuts[1..], cuts[0], |b.text|);
      FirstOrLater(b, cuts, from, c);
    }
  }

  lemma EmptyChunk(b: Block, at: nat)
    requires at <= |b.text| == |b.lineOf|
    ensures Emit(b, at, at) == []
  {
    assert b.text[at..at] == "";
  }

  lemma OnlyChunk(b: Block, from: nat, c: Candidate)
    requires from <= |b.text| == |b.lineOf|
    ensures c in Emit(b, from, |b.text|)
       <==> exists start, end :: Neighbours([], from, |b.text|, start, end) && c in Emit(b, start, end)
  {
    assert Neighbours([], from, |b.text|, from, |b.text|);
  }

  lemma FirstOrLater(b: Block, cuts: seq<nat>, from: nat, c: Candidate)
    requires |b.lineOf| == |b.text| && cuts != [] && from < cuts[0] <= |b.text|
    requires forall k :: 0 < k < |cuts| ==> cuts[0] < cuts[k] <= |b.text|
    ensures (c in Emit(b, from, cuts[0])
             || exists start, end :: Neighbours(cuts[1..], cuts[0], |b.text|, start, end) && c in Emit(b, start, end))
       <==> exists start, end :: Neighbours(cuts, from, |b.text|, start, end) && c in Emit(b, start, end)
  {
    var n := |b.text|;
    assert cuts == [cuts[0]] + cuts[1..];
    assert Neighbours(cuts, from, n, from, cuts[0]);
    forall start: nat, end: nat
      ensures Neighbours(cuts[1..], cuts[0], n, start, end) ==> Neighbours(cuts, from, n, start, end)
      ensures Neighbours(cuts, from, n, start, end) ==>
        start == end || (start == from && end == cuts[0]) || Neighbours(cuts[1..], cuts[0], n, start, end)
    {
      NeighboursIff(cuts, from, n, start, end);
    }
    EmptyChunks(b);
  }

  lemma EmptyChunks(b: Block)
    requires |b.text| == |b.lineOf|
    ensures forall at: nat :: at <= |b.text| ==> Emit(b, at, at) == []
  {
    forall at: nat | at <= |b.text|
      ensures Emit(b, at, at) == []
    {
      EmptyChunk(b, at);
    }
  }

  lemma NeighboursIff(cuts: seq<nat>, from: nat, n: nat, start: nat, end: nat)
    requires cuts != [] && from < cuts[0] <= n && forall k :: 0 < k < |cuts| ==> cuts[0] < cuts[k] <= n
    ensures Neighbours(cuts[1..], cuts[0], n, start, end) ==> Neighbours(cuts, from, n, start, end)
    ensures Neighbours(cuts, from, n, start, end) ==>
      start == end || (start == from && end == cuts[0]) || Neighbours(cuts[1..], cuts[0], n, start, end)
  {
    forall p: nat
      ensures p in cuts <==> p == cuts[0] || p in cuts[1..]
      ensures p in cuts[1..] ==> cuts[0] < p <= n
    {
      InRest(cuts, p);
    }
    assert cuts[0] in cuts;
    if Neighbours(cuts, from, n, start, end) && start < end {
      if start == from {
        assert end <= cuts[0];
      } else {
        assert start >= cuts[0] && (end == n || end in cuts[1..]);
      }
    }
  }

  lemma InRest(cuts: seq<nat>, p: nat)
    requires cuts != []
    ensures p in cuts <==> p == cuts[0] || p in cuts[1..]
    ensures p in cuts[1..] ==> exists k :: 0 < k < |cuts| && cuts[k] == p
  {
    if p in cuts[1..] {
      var k :| 0 <= k < |cuts[1..]| && cuts[1..][k] == p;
      assert cuts[k + 1] == p;
    }
  }

  // ----- a sentence is a piece of the block

  /** A sentence stands in the text where its line says, with nothing but space before it in its chunk. */
  lemma EmitPlaces(b: Block, start: nat, end: nat) returns (k: nat)
    requires start <= end <= |b.text| == |b.lineOf| && Emit(b, start, end) != []
    ensures var c := Emit(b, start, end)[0];
      && |Emit(b, start, end)| == 1 && c.sentence != ""
      && start <= k && k + |c.sentence| <= end && b.text[k..k + |c.sentence|] == c.sentence
      && c.line == b.lineOf[k]
      && (forall i :: start <= i < k || k + |c.sentence| <= i < end ==> IsSpace(b.text[i]))
      && !IsSpace(b.text[k]) && !IsSpace(b.text[k + |c.sentence| - 1])
  {
    k := EmitIs(b, start, end);
    StripEnds(b.text, start, end, k);
  }

  lemma EmitIs(b: Block, start: nat, end: nat) returns (k: nat)
    requires start <= end <= |b.text| == |b.lineOf| && Emit(b, start, end) != []
    ensures var chunk := b.text[start..end];
      && k == start + |chunk| - |StripLeft(chunk)| && start <= k < end && Strip(chunk) != ""
      && Emit(b, start, end) == [Candidate(b.lineOf[k], Strip(chunk))]
  {
    var chunk := b.text[start..end];
    StripLeftParts(chunk);
    StripRightParts(StripLeft(chunk));
    k := start + |chunk| - |StripLeft(chunk)|;
  }

  lemma StripEnds(text: string, start: nat, end: nat, k: nat)
    requires start <= end <= |text| && Strip(text[start..end]) != ""
    requires var chunk := text[start..end]; k == start + |chunk| - |StripLeft(chunk)| && start <= k < end
    ensures var c := Strip(text[start..end]);
      && k + |c| <= end && text[k..k + |c|] == c
      && (forall i :: start <= i < k || k + |c| <= i < end ==> IsSpace(text[i]))
      && !IsSpace(text[k]) && !IsSpace(text[k + |c| - 1])
  {
    var chunk := text[start..end];
    StripLeftParts(chunk);
    StripRightParts(StripLeft(chunk));
    StrippedAway(text, start, end, k);
    assert StripLeft(chunk)[0] == chunk[k - start] == text[k];
    var c := Strip(chunk);
    assert c[|c| - 1] == text[k..k + |c|][|c| - 1];
  }

  /** What stripping takes is white space. */
  lemma StrippedAway(text: string, start: nat, end: nat, k: nat)
    requires start <= k <= end <= |text|
    requires var chunk := text[start..end]; var l := StripLeft(chunk);
      && k == start + |chunk| - |l| && l == chunk[|chunk| - |l|..]
      && (forall i :: 0 <= i < |chunk| - |l| ==> IsSpace(chunk[i]))
      && |Strip(chunk)| <= |l| && Strip(chunk) == l[..|Strip(chunk)|]
      && (forall i :: |Strip(chunk)| <= i < |l| ==> IsSpace(l[i]))
    ensures var c := Strip(text[start..end]);
      && k + |c| <= end && text[k..k + |c|] == c
      && forall i :: start <= i < k || k + |c| <= i < end ==> IsSpace(text[i])
  {
    var chunk := text[start..end];
    var l := StripLeft(chunk);
    assert l == text[k..end];
    forall i | start <= i < k || k + |Strip(chunk)| <= i < end
      ensures IsSpace(text[i])
    {
      if i < k {
        assert text[i] == chunk[i - start];
      } else {
        assert text[i] == l[i - k];
      }
    }
  }

  lemma {:induction false} StripLeftParts(s: string)
    ensures var n := |s| - |StripLeft(s)|;
      n >= 0 && StripLeft(s) == s[n..] && forall i :: 0 <= i < n ==> IsSpace(s[i])
    ensures StripLeft(s) != "" ==> !IsSpace(StripLeft(s)[0])
  {
    if s != "" && IsSpace(s[0]) {
      StripLeftParts(s[1..]);
    }
  }

  lemma {:induction false} StripRightParts(s: string)
    ensures var n := |StripRight(s)|;
      n <= |s| && StripRight(s) == s[..n] && forall i :: n <= i < |s| ==> IsSpace(s[i])
    ensures StripRight(s) != "" ==> !IsSpace(StripRight(s)[|StripRight(s)| - 1])
  {
    if s != "" && IsSpace(s[|s| - 1]) {
      StripRightParts(s[..|s| - 1]);
    }
  }

  // ----- nothing is lost

  /** The characters that are no space. */
  function Squeeze(s: string): string {
    if s == "" then "" else (if IsSpace(s[0]) then "" else [s[0]]) + Squeeze(s[1..])
  }

  lemma {:induction false} SqueezeConcat(a: string, b: string)
    ensures Squeeze(a + b) == Squeeze(a) + Squeeze(b)
  {
    if a == "" {
      assert a + b == b;
    } else {
      assert (a + b)[1..] == a[1..] + b;
      SqueezeConcat(a[1..], b);
    }
  }

  lemma {:induction false} SqueezeSpace(s: string)
    requires forall i :: 0 <= i < |s| ==> IsSpace(s[i])
    ensures Squeeze(s) == ""
  {
    if s != "" {
      SqueezeSpace(s[1..]);
    }
  }

  lemma SqueezeStrip(s: string)
    ensures Squeeze(Strip(s)) == Squeeze(s)
  {
    var l := StripLeft(s);
    StripLeftParts(s);
    StripRightParts(l);
    var n := |s| - |l|;
    assert s == s[..n] + l;
    SqueezeConcat(s[..n], l);
    SqueezeSpace(s[..n]);
    assert l == Strip(s) + l[|Strip(s)|..];
    SqueezeConcat(Strip(s), l[|Strip(s)|..]);
    SqueezeSpace(l[|Strip(s)|..]);
  }

  function Texts(sentences: seq<Candidate>): string {
    if sentences == [] then "" else sentences[0].sentence + Texts(sentences[1..])
  }

  lemma {:induction false} TextsConcat(a: seq<Candidate>, b: seq<Candidate>)
    ensures Texts(a + b) == Texts(a) + Texts(b)
  {
    if a == [] {
      assert a + b == b;
    } else {
      assert (a + b)[1..] == a[1..] + b;
      TextsConcat(a[1..], b);
    }
  }

  lemma EmitText(b: Block, start: nat, end: nat)
    requires start <= end <= |b.text| == |b.lineOf|
    ensures Squeeze(Texts(Emit(b, start, end))) == Squeeze(b.text[start..end])
  {
    SqueezeStrip(b.text[start..end]);
    if Emit(b, start, end) != [] {
      assert Texts(Emit(b, start, end)) == Emit(b, start, end)[0].sentence;
    }
  }

  lemma {:induction false} ChunksText(b: Block, cuts: seq<nat>, start: nat)
    requires |b.lineOf| == |b.text| && Ascending(cuts, start, |b.text|)
    ensures start <= |b.text| && Squeeze(Texts(Chunks(b, cuts, start))) == Squeeze(b.text[start..])
    decreases cuts
  {
    AscendingEnds(cuts, start, |b.text|);
    if cuts == [] {
      EmitText(b, start, |b.text|);
      assert b.text[start..|b.text|] == b.text[start..];
    } else {
      EmitText(b, start, cuts[0]);
      ChunksText(b, cuts[1..], cuts[0]);
      SqueezeTexts(Emit(b, start, cuts[0]), Chunks(b, cuts[1..], cuts[0]));
      SqueezeSplit(b.text, start, cuts[0]);
    }
  }

  lemma SqueezeTexts(a: seq<Candidate>, b: seq<Candidate>)
    ensures Squeeze(Texts(a + b)) == Squeeze(Texts(a)) + Squeeze(Texts(b))
  {
    TextsConcat(a, b);
    SqueezeConcat(Texts(a), Texts(b));
  }

  lemma SqueezeSplit(s: string, i: nat, j: nat)
    requires i <= j <= |s|
    ensures Squeeze(s[i..]) == Squeeze(s[i..j]) + Squeeze(s[j..])
  {
    SqueezeConcat(s[i..j], s[j..]);
    assert s[i..] == s[i..j] + s[j..];
  }

  /** The sentences in order are the block's text, white space aside. */
  lemma NothingIsLost(b: Block, track: bool)
    requires |b.lineOf| == |b.text|
    ensures Squeeze(Texts(SentencesOf(b, track))) == Squeeze(b.text)
  {
    CutsAscend(b.text, track, 0, 0);
    ChunksText(b, Cuts(b.text, track, 0), 0);
    assert b.text[0..] == b.text;
  }
}
