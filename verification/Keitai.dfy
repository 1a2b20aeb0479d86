/** The judgement of a sentence by its morphemes (`is_keitai` of `scripts/ja_register_check.py`). */
module Keitai {

  /** An analyzer token; the analyzer gives each at least two parts of speech. */
  datatype Morpheme = Morpheme(surface: string, lemmaForm: string, pos: string, subPos: string)

  const AUXILIARY := "助動詞"
  const PARTICLE := "助詞"
  const FINAL := "終助詞"
  const SKIPPED := {"補助記号", "空白", "記号"}
  const POLITE := {"です", "ます"}
  const REQUESTS := {"ください", "下さい"}

  /** A symbol or a sentence-final particle. */
  predicate Passed(m: Morpheme) {
    m.pos in SKIPPED || (m.pos == PARTICLE && m.subPos == FINAL)
  }

  /** The sentence proper ends before `end`. */
  predicate EndsAt(ms: seq<Morpheme>, end: nat) {
    && end <= |ms| && (forall i :: end <= i < |ms| ==> Passed(ms[i]))
    && (end > 0 ==> !Passed(ms[end - 1]))
  }

  /** A polite form stands at `i`, and only auxiliaries from there to the end. */
  predicate PoliteFrom(ms: seq<Morpheme>, i: nat, end: nat)
    requires i < end <= |ms|
  {
    ms[i].lemmaForm in POLITE && forall j :: i <= j < end ==> ms[j].pos == AUXILIARY
  }

  predicate IsPolite(ms: seq<Morpheme>, end: nat)
    requires end <= |ms|
  {
    (end > 0 && ms[end - 1].surface in REQUESTS) || exists i :: 0 <= i < end && PoliteFrom(ms, i, end)
  }

  /** `is_keitai`: two walks back. The answer is that of the one place the sentence proper ends at. */
  method IsKeitai(ms: seq<Morpheme>) returns (r: bool)
    ensures forall end: nat :: EndsAt(ms, end) ==> (r <==> IsPolite(ms, end))
    ensures exists end: nat :: EndsAt(ms, end)
  {
    var end: nat := |ms|;
    while end > 0 && Passed(ms[end - 1])
      invariant end <= |ms| && forall i :: end <= i < |ms| ==> Passed(ms[i])
    {
      end := end - 1;
    }
    assert EndsAt(ms, end);
    forall other: nat | EndsAt(ms, other)
      ensures other == end
    {
      OneEnd(ms, other, end);
    }
    if end > 0 && ms[end - 1].surface in REQUESTS {
      return true;
    }
    var start: nat := end;
    while start > 0 && ms[start - 1].pos == AUXILIARY
      invariant start <= end && forall i :: start <= i < end ==> ms[i].pos == AUXILIARY
    {
      start := start - 1;
    }
    r := exists i :: start <= i < end && ms[i].lemmaForm in POLITE;
    if r {
      var i :| start <= i < end && ms[i].lemmaForm in POLITE;
      assert PoliteFrom(ms, i, end);
    }
    forall i: nat | i < end && PoliteFrom(ms, i, end)
      ensures start <= i
    {
      StartsInside(ms, i, start, end);
    }
  }

  lemma StartsInside(ms: seq<Morpheme>, i: nat, start: nat, end: nat)
    requires i < end <= |ms| && PoliteFrom(ms, i, end) && start <= end
    requires start > 0 ==> ms[start - 1].pos != AUXILIARY
    ensures start <= i
  {
  }

  lemma OneEnd(ms: seq<Morpheme>, a: nat, b: nat)
    requires EndsAt(ms, a) && EndsAt(ms, b)
    ensures a == b
  {
  }

  /** What precedes the last morpheme that is no auxiliary is never read: a polite form inside a sentence does not
      make its ending polite. */
  lemma OnlyTheEndingCounts(front: seq<Morpheme>, other: seq<Morpheme>, m: Morpheme, ending: seq<Morpheme>, end: nat)
    requires m.pos != AUXILIARY && !Passed(m) && EndsAt(ending, end)
    ensures EndsAt(front + [m] + ending, |front| + 1 + end) && EndsAt(other + [m] + ending, |other| + 1 + end)
    ensures IsPolite(front + [m] + ending, |front| + 1 + end) <==> IsPolite(other + [m] + ending, |other| + 1 + end)
  {
    EndingDecides(front, m, ending, end);
    EndingDecides(other, m, ending, end);
  }

  lemma EndingDecides(front: seq<Morpheme>, m: Morpheme, ending: seq<Morpheme>, end: nat)
    requires m.pos != AUXILIARY && !Passed(m) && EndsAt(ending, end)
    ensures EndsAt(front + [m] + ending, |front| + 1 + end)
    ensures IsPolite(front + [m] + ending, |front| + 1 + end) <==> IsPolite([m] + ending, 1 + end)
  {
    var whole, tail, n := front + [m] + ending, [m] + ending, |front|;
    assert whole[n..] == tail && whole[n] == m && whole[n + end] == tail[end];
    var last, tailEnd := n + 1 + end, 1 + end;
    forall i: nat | i < last && PoliteFrom(whole, i, last)
      ensures i >= n && PoliteFrom(tail, i - n, tailEnd)
    {
      StartsInside(whole, i, n + 1, last);
      PoliteInside(whole, n, i - n, tailEnd);
    }
    forall i: nat | i < tailEnd && PoliteFrom(tail, i, tailEnd)
      ensures PoliteFrom(whole, n + i, last)
    {
      PoliteInside(whole, n, i, tailEnd);
    }
    if exists i :: 0 <= i < last && PoliteFrom(whole, i, last) {
      var i :| 0 <= i < last && PoliteFrom(whole, i, last);
      assert PoliteFrom(tail, i - n, tailEnd);
    }
    if exists i :: 0 <= i < tailEnd && PoliteFrom(tail, i, tailEnd) {
      var i :| 0 <= i < tailEnd && PoliteFrom(tail, i, tailEnd);
      assert PoliteFrom(whole, n + i, last);
    }
  }

  lemma PoliteInside(whole: seq<Morpheme>, n: nat, i: nat, end: nat)
    requires n <= |whole| && i < end <= |whole| - n
    ensures PoliteFrom(whole, n + i, n + end) <==> PoliteFrom(whole[n..], i, end)
  {
    var tail := whole[n..];
    assert forall j :: n <= j < |whole| ==> whole[j] == tail[j - n];
  }
}
