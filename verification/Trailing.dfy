/** A sentence without its trailing marks and parentheticals (`strip_trailing` of `scripts/ja_register_check.py`),
    after links, images and tags have been taken out. */
module Trailing {
  import opened TextLines

  /** A space or tab, a terminal mark, or emphasis. */
  predicate IsTrailing(c: char) {
    c == ' ' || c == '\t' || c == '。' || c == '．' || c == '！' || c == '？' || c == '!' || c == '?' || c == '.'
    || c == '*' || c == '_' || c == '~'
  }

  function StripEnd(s: string): (t: string)
    ensures |t| <= |s| && t == s[..|t|] && (t != "" ==> !IsTrailing(t[|t| - 1]))
  {
    if s != "" && IsTrailing(s[|s| - 1]) then StripEnd(s[..|s| - 1]) else s
  }

  predicate IsCloser(c: char) {
    c == '）' || c == ')'
  }

  function OpenerOf(c: char): char {
    if c == '）' then '（' else '('
  }

  /** Closers less openers from `i` to the end. */
  function Excess(s: string, i: nat, closer: char): int
    requires i <= |s|
    decreases |s| - i
  {
    if i == |s| then 0
    else Excess(s, i + 1, closer) + (if s[i] == closer then 1 else 0) - (if s[i] == OpenerOf(closer) then 1 else 0)
  }

  datatype Found = Missing | At(index: nat)

  /** Where the last parenthetical opens: the nearest place from which the brackets balance. */
  function GroupStart(s: string, i: nat, closer: char): (f: Found)
    requires i <= |s|
    ensures f.At? ==> f.index < i && Excess(s, f.index, closer) == 0
    ensures forall k :: (if f.At? then f.index < k else 0 <= k) && k < i ==> Excess(s, k, closer) != 0
  {
    if i == 0 then Missing
    else if Excess(s, i - 1, closer) == 0 then At(i - 1)
    else GroupStart(s, i - 1, closer)
  }

  /** Nothing but spaces and emphasis. */
  predicate IsBare(s: string) {
    forall i :: 0 <= i < |s| ==> s[i] in " *_"
  }

  /** What is left of a text that ends in a parenthetical opening at `i`. */
  function WithoutGroup(s: string, i: nat): (t: string)
    requires i < |s| && |s| >= 2
    ensures |t| < |s|
  {
    if !IsBare(s[..i]) then s[..i] else if i + 1 <= |s| - 1 then s[i + 1..|s| - 1] else ""
  }

  /** Where the parenthetical opens that a text ends in. */
  function LastGroup(text: string): (f: Found)
    ensures f.At? ==> |text| >= 2 && f.index < |text|
  {
    if text == "" || !IsCloser(text[|text| - 1]) then Missing
    else
      LoneCloser(text);
      GroupStart(text, |text|, text[|text| - 1])
  }

  function Core(s: string): (t: string)
    decreases |s|
  {
    match LastGroup(StripEnd(s))
    case Missing => StripEnd(s)
    case At(i) => Core(WithoutGroup(StripEnd(s), i))
  }

  /** A closer alone does not balance. */
  lemma LoneCloser(s: string)
    requires s != "" && IsCloser(s[|s| - 1])
    ensures Excess(s, |s| - 1, s[|s| - 1]) == 1
    ensures GroupStart(s, |s|, s[|s| - 1]).At? ==> GroupStart(s, |s|, s[|s| - 1]).index < |s| - 1
  {
  }

  /** The scan back for the opener. */
  method FindGroup(text: string) returns (f: Found)
    requires text != "" && IsCloser(text[|text| - 1])
    ensures f == GroupStart(text, |text|, text[|text| - 1])
  {
    var closer := text[|text| - 1];
    LoneCloser(text);
    var depth, i := 1, |text| - 1;
    while i > 0 && depth != 0
      invariant 0 <= i < |text| && depth == Excess(text, i, closer)
      invariant forall k :: i < k < |text| ==> Excess(text, k, closer) != 0
    {
      i := i - 1;
      depth := depth + (if text[i] == closer then 1 else 0) - (if text[i] == OpenerOf(closer) then 1 else 0);
    }
    GroupIs(text, i, closer);
    f := if depth == 0 then At(i) else Missing;
  }

  /** `strip_trailing`. */
  method StripTrailing(sentence: string) returns (text: string)
    ensures text == Core(sentence)
  {
    text := sentence;
    while true
      invariant Core(text) == Core(sentence)
      decreases |text|
    {
      text := StripEnd(text);
      StripEndOnce(text);
      if text == "" || !IsCloser(text[|text| - 1]) {
        return;
      }
      LoneCloser(text);
      var f := FindGroup(text);
      if f.Missing? {
        return;
      }
      text := WithoutGroup(text, f.index);
    }
  }

  lemma {:induction false} StripEndOnce(s: string)
    ensures s == "" || !IsTrailing(s[|s| - 1]) ==> StripEnd(s) == s
  {
  }

  lemma {:induction false} GroupIs(s: string, i: nat, closer: char)
    requires i < |s| && forall k :: i < k < |s| ==> Excess(s, k, closer) != 0
    requires i == 0 || Excess(s, i, closer) == 0
    ensures GroupStart(s, |s|, closer) == if Excess(s, i, closer) == 0 then At(i) else Missing
  {
    GroupFrom(s, |s|, i, closer);
  }

  lemma {:induction false} GroupFrom(s: string, n: nat, i: nat, closer: char)
    requires i < n <= |s| && forall k :: i < k < n ==> Excess(s, k, closer) != 0
    requires i == 0 || Excess(s, i, closer) == 0
    ensures GroupStart(s, n, closer) == if Excess(s, i, closer) == 0 then At(i) else Missing
  {
    if i < n - 1 {
      GroupFrom(s, n - 1, i, closer);
    }
  }

  // ----- what is left

  /** A piece of the sentence. */
  ghost predicate Inside(t: string, s: string) {
    exists i: nat :: StandsAt(t, s, i)
  }

  predicate StandsAt(t: string, s: string, i: nat) {
    i + |t| <= |s| && t == s[i..i + |t|]
  }

  /** No place from which the brackets balance. */
  ghost predicate Unmatched(t: string, closer: char) {
    forall k :: 0 <= k < |t| ==> Excess(t, k, closer) != 0
  }

  lemma InsideOf(t: string, s: string, i: nat)
    requires i + |t| <= |s| && t == s[i..i + |t|]
    ensures Inside(t, s)
  {
    assert StandsAt(t, s, i);
  }

  lemma SliceOfSlice(s: string, i: nat, j: nat, k: nat, l: nat)
    requires i <= j <= |s| && k <= l <= j - i
    ensures s[i..j][k..l] == s[i + k..i + l]
  {
    var part := s[i..j];
    forall x | 0 <= x < l - k
      ensures part[k..l][x] == s[i + k..i + l][x]
    {
      assert part[k..l][x] == part[k + x] == s[i + k + x];
    }
    assert part[k..l] == s[i + k..i + l];
  }

  lemma InsideTwice(r: string, t: string, s: string)
    requires Inside(r, t) && Inside(t, s)
    ensures Inside(r, s)
  {
    var i: nat :| StandsAt(r, t, i);
    var j: nat :| StandsAt(t, s, j);
    SliceOfSlice(s, j, j + |t|, i, i + |r|);
    assert StandsAt(r, s, j + i);
  }

  ghost predicate IsCore(t: string, s: string) {
    && Inside(t, s)
    && (t != "" ==> !IsTrailing(t[|t| - 1]))
    && (t != "" && IsCloser(t[|t| - 1]) ==> Unmatched(t, t[|t| - 1]))
  }

  lemma RestInside(text: string, i: nat)
    requires i < |text| && |text| >= 2
    ensures Inside(WithoutGroup(text, i), text)
  {
    var rest := WithoutGroup(text, i);
    if !IsBare(text[..i]) {
      InsideOf(rest, text, 0);
    } else {
      InsideOf(rest, text, i + 1);
    }
  }

  /** The core is a piece of the sentence, ends in no mark, and in no parenthetical that opens in it. */
  lemma {:induction false} CoreIs(s: string)
    ensures IsCore(Core(s), s)
    decreases |s|
  {
    var text := StripEnd(s);
    InsideOf(text, s, 0);
    if text != "" && IsCloser(text[|text| - 1]) {
      var f := GroupStart(text, |text|, text[|text| - 1]);
      if f.At? {
        LoneCloser(text);
        var rest := WithoutGroup(text, f.index);
        CoreIs(rest);
        RestInside(text, f.index);
        InsideTwice(rest, text, s);
        InsideTwice(Core(s), rest, s);
      }
    }
  }

  /** A core has nothing more to strip. */
  lemma CoreSettles(s: string)
    ensures Core(Core(s)) == Core(s)
  {
    CoreIs(s);
    var t := Core(s);
    StripEndOnce(t);
    if t != "" && IsCloser(t[|t| - 1]) {
      GroupFrom(t, |t|, 0, t[|t| - 1]);
    }
  }

  // ----- what must be left

  function Count(s: string, c: char): nat {
    if s == "" then 0 else (if s[0] == c then 1 else 0) + Count(s[1..], c)
  }

  /** The brackets pair up, read from the end: no tail opens more than it closes. */
  predicate Paired(s: string, open: char, close: char) {
    Count(s, open) == Count(s, close) && forall k :: 0 <= k <= |s| ==> Count(s[k..], open) <= Count(s[k..], close)
  }

  predicate IsPair(open: char, close: char) {
    (open == '（' && close == '）') || (open == '(' && close == ')')
  }

  /** White space, a terminal mark, or emphasis. */
  predicate IsMark(c: char) {
    c in " \t。．！？!?.*_~"
  }

  predicate AllMarks(s: string) {
    forall i :: 0 <= i < |s| ==> IsMark(s[i])
  }

  predicate EndsInMark(s: string) {
    s != "" && IsMark(s[|s| - 1])
  }

  lemma MarkIs(c: char)
    ensures IsMark(c) <==> IsTrailing(c)
  {
  }

  /** Nothing but spaces and emphasis. */
  predicate AllEmphasis(s: string) {
    forall i :: 0 <= i < |s| ==> s[i] in " *_"
  }

  lemma {:induction false} ExcessIs(s: string, i: nat, open: char, close: char)
    requires i <= |s| && IsPair(open, close)
    ensures Excess(s, i, close) == Count(s[i..], close) - Count(s[i..], open)
    decreases |s| - i
  {
    if i < |s| {
      ExcessIs(s, i + 1, open, close);
      assert s[i..][1..] == s[i + 1..];
    }
  }

  lemma {:induction false} CountConcat(s: string, t: string, c: char)
    ensures Count(s + t, c) == Count(s, c) + Count(t, c)
  {
    if s == "" {
      assert s + t == t;
    } else {
      assert (s + t)[1..] == s[1..] + t;
      CountConcat(s[1..], t, c);
    }
  }

  /** Marks behind a sentence make no difference. */
  lemma {:induction false} MarksAreDropped(s: string, marks: string)
    requires AllMarks(marks)
    ensures StripEnd(s + marks) == StripEnd(s) && Core(s + marks) == Core(s)
    decreases |marks|
  {
    if marks == "" {
      assert s + marks == s;
    } else {
      var n := |marks| - 1;
      MarkIs(marks[n]);
      assert (s + marks)[..|s + marks| - 1] == s + marks[..n];
      MarksAreDropped(s, marks[..n]);
    }
  }

  lemma PlainEnd(s: string)
    requires !EndsInMark(s)
    ensures StripEnd(s) == s
  {
    if s != "" {
      MarkIs(s[|s| - 1]);
    }
    StripEndOnce(s);
  }

  /** A sentence that ends in neither a mark nor a closing bracket is its own core. */
  lemma PlainIsCore(s: string)
    requires !EndsInMark(s) && (s != "" ==> s[|s| - 1] != '）' && s[|s| - 1] != ')')
    ensures Core(s) == s
  {
    PlainEnd(s);
    CoreStops(s);
  }

  lemma CoreStops(s: string)
    requires StripEnd(s) == s && LastGroup(s).Missing?
    ensures Core(s) == s
  {
  }

  lemma TailExcess(text: string, k: nat, part: string, open: char, close: char)
    requires IsPair(open, close) && k < |text| && text[k..] == part + [close]
    ensures Excess(text, k, close) == 1 + Count(part, close) - Count(part, open)
  {
    ExcessIs(text, k, open, close);
    CountConcat(part, [close], open);
    CountConcat(part, [close], close);
    assert [close][1..] == "";
  }

  /** Where the brackets first balance, read from the end. */
  lemma GroupOpens(front: string, inner: string, open: char, close: char)
    requires IsPair(open, close) && Paired(inner, open, close)
    ensures var s := front + [open] + inner + [close]; GroupStart(s, |s|, close) == At(|front|)
  {
    var s := front + [open] + inner + [close];
    forall k | |front| < k < |s|
      ensures Excess(s, k, close) != 0
    {
      var j := k - |front| - 1;
      assert s[k..] == inner[j..] + [close];
      TailExcess(s, k, inner[j..], open, close);
    }
    assert s[|front|..] == ([open] + inner) + [close];
    TailExcess(s, |front|, [open] + inner, open, close);
    assert ([open] + inner)[1..] == inner;
    GroupIs(s, |front|, close);
  }

  lemma ClosedEnd(front: string, inner: string, open: char, close: char)
    requires IsPair(open, close)
    ensures var s := front + [open] + inner + [close];
      && StripEnd(s) == s && s[..|front|] == front && s[|front| + 1..|s| - 1] == inner && s[|s| - 1] == close
  {
    var s := front + [open] + inner + [close];
    assert s[|s| - 1] == close;
    CloserIsNoMark(close);
    PlainEnd(s);
  }

  lemma CloserIsNoMark(close: char)
    requires IsCloser(close)
    ensures !IsMark(close)
  {
  }

  /** A parenthetical behind something is dropped, and a sentence that is nothing else is judged by what it holds. */
  lemma GroupIsDropped(front: string, inner: string, open: char, close: char, marks: string)
    requires IsPair(open, close) && Paired(inner, open, close) && AllMarks(marks)
    ensures Core(front + [open] + inner + [close] + marks) == if AllEmphasis(front) then Core(inner) else Core(front)
  {
    var s := front + [open] + inner + [close];
    MarksAreDropped(s, marks);
    GroupOpens(front, inner, open, close);
    ClosedEnd(front, inner, open, close);
    assert AllEmphasis(front) <==> IsBare(front);
    if inner == "" {
      assert s[|front| + 1..|s| - 1] == "";
    }
  }

  /** A closing bracket whose opening one is missing stays, and everything before it. */
  lemma LoneCloserStays(s: string, open: char, close: char, marks: string)
    requires IsPair(open, close) && s != "" && s[|s| - 1] == close && AllMarks(marks)
    requires forall k :: 0 <= k < |s| ==> Count(s[k..], open) != Count(s[k..], close)
    ensures Core(s + marks) == s
  {
    MarksAreDropped(s, marks);
    CloserIsNoMark(close);
    PlainEnd(s);
    NoGroup(s, open, close);
    CoreStops(s);
  }

  lemma NoGroup(s: string, open: char, close: char)
    requires IsPair(open, close) && s != "" && s[|s| - 1] == close
    requires forall k :: 0 <= k < |s| ==> Count(s[k..], open) != Count(s[k..], close)
    ensures LastGroup(s).Missing?
  {
    forall k | 0 <= k < |s|
      ensures Excess(s, k, close) != 0
    {
      ExcessIs(s, k, open, close);
    }
    GroupFrom(s, |s|, 0, close);
  }

  /** These are all the cases: behind its marks a sentence ends in no closing bracket, in one that is matched, or in a lone
      one. */
  lemma CoreCases(s: string) returns (text: string, marks: string, front: string, inner: string, open: char)
    ensures s == text + marks && AllMarks(marks) && !EndsInMark(text)
    ensures text != "" && IsPair(open, text[|text| - 1]) ==>
      || (text == front + [open] + inner + [text[|text| - 1]] && Paired(inner, open, text[|text| - 1]))
      || forall k :: 0 <= k < |text| ==> Count(text[k..], open) != Count(text[k..], text[|text| - 1])
    ensures text != "" && (text[|text| - 1] == '）' || text[|text| - 1] == ')') ==> IsPair(open, text[|text| - 1])
  {
    text, marks := StripEnd(s), s[|StripEnd(s)|..];
    MarksBehind(s);
    if text != "" {
      MarkIs(text[|text| - 1]);
    }
    front, inner, open := "", "", if text != "" && text[|text| - 1] == '）' then '（' else '(';
    if text != "" && IsPair(open, text[|text| - 1]) {
      var close := text[|text| - 1];
      var f := GroupStart(text, |text|, close);
      forall k | 0 <= k < |text|
        ensures Excess(text, k, close) == Count(text[k..], close) - Count(text[k..], open)
      {
        ExcessIs(text, k, open, close);
      }
      if f.At? {
        front, inner := GroupParts(text, f.index, open, close);
      }
    }
  }

  lemma {:induction false} MarksBehind(s: string)
    ensures AllMarks(s[|StripEnd(s)|..])
  {
    if s != "" && IsTrailing(s[|s| - 1]) {
      var rest := s[..|s| - 1];
      MarksBehind(rest);
      MarkIs(s[|s| - 1]);
      assert s[|StripEnd(s)|..] == rest[|StripEnd(s)|..] + [s[|s| - 1]];
    }
  }

  /** From its end on, a group that balances first at its beginning has its brackets paired. */
  lemma GroupParts(text: string, i: nat, open: char, close: char) returns (front: string, inner: string)
    requires IsPair(open, close) && text != "" && text[|text| - 1] == close && i < |text|
    requires Excess(text, i, close) == 0 && forall k :: i < k < |text| ==> Excess(text, k, close) != 0
    ensures text == front + [open] + inner + [close] && Paired(inner, open, close)
  {
    front, inner := text[..i], if i + 1 < |text| then text[i + 1..|text| - 1] else "";
    StaysPositive(text, i, open, close);
    assert text == front + [open] + inner + [close];
    forall k | 0 <= k <= |inner|
      ensures Count(inner[k..], open) <= Count(inner[k..], close)
      ensures k == 0 ==> Count(inner[k..], open) == Count(inner[k..], close)
    {
      InnerExcess(text, inner, i, k, open, close);
    }
    assert inner[0..] == inner;
  }

  lemma InnerExcess(text: string, inner: string, i: nat, k: nat, open: char, close: char)
    requires IsPair(open, close) && i + 1 < |text| && inner == text[i + 1..|text| - 1] && text[|text| - 1] == close
    requires k <= |inner|
    ensures i + 1 + k < |text| && Excess(text, i + 1 + k, close) == 1 + Count(inner[k..], close) - Count(inner[k..], open)
  {
    assert text[i + 1 + k..] == inner[k..] + [close];
    TailExcess(text, i + 1 + k, inner[k..], open, close);
  }

  /** Behind the place where the brackets first balance more are closed than opened, by one just behind it. */
  lemma StaysPositive(text: string, i: nat, open: char, close: char)
    requires IsPair(open, close) && text != "" && text[|text| - 1] == close && i < |text|
    requires Excess(text, i, close) == 0 && forall k :: i < k < |text| ==> Excess(text, k, close) != 0
    ensures i + 1 < |text| && text[i] == open && Excess(text, i + 1, close) == 1
    ensures forall k :: i < k < |text| ==> Excess(text, k, close) >= 1
  {
    PositiveFrom(text, i, |text| - 1, close);
  }

  lemma {:induction false} PositiveFrom(text: string, i: nat, j: nat, close: char)
    requires i <= j < |text| && IsCloser(close) && text[|text| - 1] == close
    requires forall k :: i < k < |text| ==> Excess(text, k, close) != 0
    ensures forall k :: i < k < |text| ==> Excess(text, k, close) >= 1
    ensures i < |text| - 1 || Excess(text, |text| - 1, close) == 1
    decreases j
  {
    assert Excess(text, |text|, close) == 0;
    assert Excess(text, |text| - 1, close) == 1;
    PositiveDown(text, i, |text| - 1, close);
  }

  lemma {:induction false} PositiveDown(text: string, i: nat, j: nat, close: char)
    requires i <= j < |text| && IsCloser(close) && Excess(text, j, close) >= 1
    requires forall k :: i < k < |text| ==> Excess(text, k, close) != 0
    ensures forall k :: i < k <= j ==> Excess(text, k, close) >= 1
    decreases j
  {
    if i < j {
      if i < j - 1 {
        assert Excess(text, j - 1, close) != 0;
        PositiveDown(text, i, j - 1, close);
      }
    }
  }
}
