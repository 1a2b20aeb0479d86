/** A prose block cut into sentences, and a sentence cut down to its predicate
    (`split_sentences` and `strip_trailing` of `scripts/ja_register_check.py`). */
module Sentences {
  import opened TextLines
  import opened ProseScanner

  const OPENERS := "「『（"
  const CLOSERS := "」』）"
  const TERMINALS := "。．！？"

  // ----- brackets and code spans

  datatype Tracking = Tracking(depth: nat, inCode: bool)

  const OUTSIDE := Tracking(0, false)

  function Advance(t: Tracking, c: char): Tracking {
    if c == '`' then t.(inCode := !t.inCode)
    else if !t.inCode && c in OPENERS then t.(depth := t.depth + 1)
    else if !t.inCode && c in CLOSERS then t.(depth := if t.depth == 0 then 0 else t.depth - 1)
    else t
  }

  /** Before position `i`; without tracking, always outside. */
  function Before(text: string, track: bool, i: nat): Tracking
    requires i <= |text|
  {
    if i == 0 || !track then OUTSIDE else Advance(Before(text, track, i - 1), text[i - 1])
  }

  /** A terminal mark outside brackets and code. */
  predicate IsMark(text: string, track: bool, i: nat) {
    i < |text| && text[i] in TERMINALS && Before(text, track, i) == OUTSIDE
  }

  /** The end of the emphasis that closes at `i`. */
  function EmphasisEnd(text: string, i: nat): (e: nat)
    requires i <= |text|
    ensures i <= e <= |text| && forall k :: i <= k < e ==> text[k] in "*_"
    ensures e < |text| ==> text[e] !in "*_"
    decreases |text| - i
  {
    if i < |text| && text[i] in "*_" then EmphasisEnd(text, i + 1) else i
  }

  /** Where the marks from `i` on end a chunk. */
  function Cuts(text: string, track: bool, i: nat): seq<nat>
    requires i <= |text|
    decreases |text| - i
  {
    if i == |text| then []
    else if IsMark(text, track, i) then [EmphasisEnd(text, i + 1)] + Cuts(text, track, i + 1)
    else Cuts(text, track, i + 1)
  }

  // ----- chunks and sentences

  datatype Candidate = Candidate(line: nat, sentence: string)

  /** The chunk between two cuts, if it is not blank, with the line of its first character that is no space. */
  function Emit(b: Block, start: nat, end: nat): (c: seq<Candidate>)
    requires start <= end <= |b.text| == |b.lineOf|
  {
    var chunk := b.text[start..end];
    if Strip(chunk) == "" then []
    else
      StripLeftIsSuffix(chunk);
      BlankStrips(chunk);
      [Candidate(b.lineOf[start + |chunk| - |StripLeft(chunk)|], Strip(chunk))]
  }

  lemma {:induction false} StripLeftIsSuffix(s: string)
    ensures |StripLeft(s)| <= |s| && StripLeft(s) == s[|s| - |StripLeft(s)|..]
  {
    if s != "" && IsSpace(s[0]) {
      StripLeftIsSuffix(s[1..]);
    }
  }

  lemma BlankStrips(s: string)
    ensures StripLeft(s) == "" ==> Strip(s) == ""
  {
  }

  predicate Ascending(cuts: seq<nat>, from: nat, n: nat) {
    if cuts == [] then from <= n else from < cuts[0] && Ascending(cuts[1..], cuts[0], n)
  }

  lemma {:induction false} AscendingEnds(cuts: seq<nat>, from: nat, n: nat)
    requires Ascending(cuts, from, n)
    ensures from <= n && forall k :: 0 <= k < |cuts| ==> from < cuts[k] <= n
  {
    if cuts != [] {
      AscendingEnds(cuts[1..], cuts[0], n);
    }
  }

  function Chunks(b: Block, cuts: seq<nat>, start: nat): seq<Candidate>
    requires |b.lineOf| == |b.text| && Ascending(cuts, start, |b.text|)
    decreases cuts
  {
    if cuts == [] then Emit(b, start, |b.text|)
    else
      AscendingEnds(cuts, start, |b.text|);
      Emit(b, start, cuts[0]) + Chunks(b, cuts[1..], cuts[0])
  }

  /** Each cut lies behind its mark and before the next one. */
  lemma {:induction false} CutsAscend(text: string, track: bool, i: nat, from: nat)
    requires from <= i <= |text| || (i <= from <= |text| && forall k :: i <= k < from ==> text[k] in "*_")
    requires i <= |text|
    ensures Ascending(Cuts(text, track, i), from, |text|)
    decreases |text| - i
  {
    if i < |text| {
      if IsMark(text, track, i) {
        assert text[i] !in "*_";
        CutsAscend(text, track, i + 1, EmphasisEnd(text, i + 1));
      } else {
        CutsAscend(text, track, i + 1, from);
      }
    }
  }

  function SentencesOf(b: Block, track: bool): seq<Candidate>
    requires |b.lineOf| == |b.text|
  {
    CutsAscend(b.text, track, 0, 0);
    Chunks(b, Cuts(b.text, track, 0), 0)
  }

  // ----- what being outside means

  function Ticks(text: string, i: nat): nat
    requires i <= |text|
  {
    if i == 0 then 0 else Ticks(text, i - 1) + if text[i - 1] == '`' then 1 else 0
  }

  /** Opening less closing brackets outside code, from `j` up to `i`. */
  function Balance(text: string, j: nat, i: nat): int
    requires j <= i <= |text|
    decreases i - j
  {
    if j == i then 0
    else Balance(text, j, i - 1) + if Ticks(text, i - 1) % 2 == 1 then 0 else Weight(text[i - 1])
  }

  function Weight(c: char): int {
    if c == '「' || c == '『' || c == '（' then 1 else if c == '」' || c == '』' || c == '）' then -1 else 0
  }

  /** In code after an odd number of backticks; as deep as the worst stretch up to here is unbalanced. */
  lemma {:induction false} DepthIsWorst(text: string, i: nat) returns (j: nat)
    requires i <= |text|
    ensures Before(text, true, i).inCode <==> Ticks(text, i) % 2 == 1
    ensures j <= i && Balance(text, j, i) == Before(text, true, i).depth
    ensures forall k :: 0 <= k <= i ==> Balance(text, k, i) <= Before(text, true, i).depth
  {
    if i == 0 {
      j := 0;
    } else {
      j := DepthIsWorst(text, i - 1);
      var before, c := Before(text, true, i - 1), text[i - 1];
      assert c == '`' ==> Weight(c) == 0;
      if !before.inCode && c in CLOSERS && before.depth == 0 {
        j := i;
      }
      forall k | 0 <= k <= i
        ensures Balance(text, k, i) <= Before(text, true, i).depth
      {
        if k < i {
          assert Balance(text, k, i - 1) <= before.depth;
        }
      }
    }
  }

  /** Outside code, with no stretch up to `i` that opens more brackets than it closes. */
  predicate IsClosed(text: string, i: nat)
    requires i <= |text|
  {
    Ticks(text, i) % 2 == 0 && forall k :: 0 <= k <= i ==> Balance(text, k, i) <= 0
  }

  /** The tracking is outside again exactly where that holds. */
  lemma ClosedIff(text: string, i: nat)
    requires i <= |text|
    ensures IsClosed(text, i) <==> Before(text, true, i) == OUTSIDE
  {
    var j := DepthIsWorst(text, i);
    if IsClosed(text, i) {
      assert Balance(text, j, i) <= 0;
    }
  }

  method ScanEmphasis(text: string, i: nat) returns (end: nat)
    requires i <= |text|
    ensures end == EmphasisEnd(text, i)
  {
    end := i;
    while end < |text| && text[end] in "*_"
      invariant i <= end <= |text| && EmphasisEnd(text, end) == EmphasisEnd(text, i)
    {
      end := end + 1;
    }
  }

  /** One more chunk. */
  lemma ChunkAtMark(b: Block, track: bool, i: nat, start: nat, done: seq<Candidate>)
    requires |b.lineOf| == |b.text| && i < |b.text| && start <= |b.text| && IsMark(b.text, track, i)
    requires Ascending(Cuts(b.text, track, i), start, |b.text|)
    ensures var end := EmphasisEnd(b.text, i + 1);
      && start <= end && Ascending(Cuts(b.text, track, i + 1), end, |b.text|)
      && done + Chunks(b, Cuts(b.text, track, i), start)
           == (done + Emit(b, start, end)) + Chunks(b, Cuts(b.text, track, i + 1), end)
  {
    var end := EmphasisEnd(b.text, i + 1);
    var cuts := Cuts(b.text, track, i);
    assert cuts[0] == end && cuts[1..] == Cuts(b.text, track, i + 1);
    Associate(done, Emit(b, start, end), Chunks(b, cuts[1..], end));
  }

  lemma Associate<T>(a: seq<T>, b: seq<T>, c: seq<T>)
    ensures a + (b + c) == (a + b) + c
  {
  }

  /** Where a bracket or a backtick leaves the tracking. */
  method Track(t: Tracking, track: bool, c: char) returns (u: Tracking, special: bool)
    ensures u == if track then Advance(t, c) else t
    ensures special ==> c !in TERMINALS
  {
    u, special := t, true;
    if track && c == '`' {
      u := u.(inCode := !u.inCode);
    } else if track && !u.inCode && c in OPENERS {
      u := u.(depth := u.depth + 1);
    } else if track && !u.inCode && c in CLOSERS {
      u := u.(depth := if u.depth == 0 then 0 else u.depth - 1);
    } else {
      special := false;
    }
  }

  /** What is emitted and what is to come make up the whole. */
  ghost predicate SplitSoFar(b: Block, track: bool, i: nat, start: nat, done: seq<Candidate>)
    requires |b.lineOf| == |b.text| && i <= |b.text|
  {
    && start <= |b.text| && Ascending(Cuts(b.text, track, i), start, |b.text|)
    && done + Chunks(b, Cuts(b.text, track, i), start) == SentencesOf(b, track)
  }

  lemma SplitAtMark(b: Block, track: bool, i: nat, start: nat, done: seq<Candidate>)
    requires |b.lineOf| == |b.text| && IsMark(b.text, track, i) && SplitSoFar(b, track, i, start, done)
    ensures var end := EmphasisEnd(b.text, i + 1);
      start <= end && SplitSoFar(b, track, i + 1, end, done + Emit(b, start, end))
  {
    ChunkAtMark(b, track, i, start, done);
  }

  lemma SplitPast(b: Block, track: bool, i: nat, start: nat, done: seq<Candidate>)
    requires |b.lineOf| == |b.text| && i < |b.text| && !IsMark(b.text, track, i)
    requires SplitSoFar(b, track, i, start, done)
    ensures SplitSoFar(b, track, i + 1, start, done)
  {
  }

  lemma SplitEnds(b: Block, track: bool, start: nat, done: seq<Candidate>)
    requires |b.lineOf| == |b.text| && SplitSoFar(b, track, |b.text|, start, done)
    ensures start <= |b.text| && done + Emit(b, start, |b.text|) == SentencesOf(b, track)
  {
  }

  /** `_split`. */
  method Split(b: Block, track: bool) returns (sentences: seq<Candidate>, balanced: bool)
    requires |b.lineOf| == |b.text|
    ensures sentences == SentencesOf(b, track)
    ensures balanced <==> (track ==> IsClosed(b.text, |b.text|))
  {
    var text, state := b.text, OUTSIDE;
    var start: nat := 0;
    sentences := [];
    CutsAscend(text, track, 0, 0);
    for i := 0 to |text|
      invariant state == Before(text, track, i)
      invariant SplitSoFar(b, track, i, start, sentences)
    {
      var next, special := Track(state, track, text[i]);
      if !special && text[i] in TERMINALS && state == OUTSIDE {
        SplitAtMark(b, track, i, start, sentences);
        var end := ScanEmphasis(text, i + 1);
        sentences := sentences + Emit(b, start, end);
        start := end;
      } else {
        SplitPast(b, track, i, start, sentences);
      }
      state := next;
    }
    SplitEnds(b, track, start, sentences);
    sentences := sentences + Emit(b, start, |text|);
    balanced := state == OUTSIDE;
    ClosedIff(text, |text|);
  }

  /** `split_sentences`: a block that leaves code or brackets open is cut at every mark. */
  method SplitSentences(b: Block) returns (sentences: seq<Candidate>)
    requires |b.lineOf| == |b.text|
    ensures sentences == SentencesOf(b, IsClosed(b.text, |b.text|))
  {
    var balanced;
    sentences, balanced := Split(b, true);
    if !balanced {
      sentences, balanced := Split(b, false);
    }
  }
}
