/** Text as lines, the way Python's `str.splitlines(keepends=True)` cuts it. */
module TextLines {

  /** A line boundary character of `splitlines`. */
  predicate IsBreak(c: char) {
    c == '\n' || c == '\r' || c == '\U{0B}' || c == '\U{0C}' || '\U{1C}' <= c <= '\U{1E}'
    || c == '\U{85}' || c == '\U{2028}' || c == '\U{2029}'
  }

  /** White space, as `str.strip` takes it. */
  predicate IsSpace(c: char) {
    IsBreak(c) || c == ' ' || c == '\t' || c == '\U{1F}' || c == '\U{A0}' || c == '\U{1680}'
    || '\U{2000}' <= c <= '\U{200A}' || c == '\U{202F}' || c == '\U{205F}' || c == '\U{3000}'
  }

  /** The length of the first line, its terminator included; `\r\n` is one terminator. */
  function LineEnd(s: string): (n: nat)
    ensures n <= |s| && (s != "" ==> n > 0)
  {
    if s == "" then 0
    else if s[0] == '\r' && |s| > 1 && s[1] == '\n' then 2
    else if IsBreak(s[0]) then 1
    else 1 + LineEnd(s[1..])
  }

  function Lines(s: string): seq<string> {
    if s == "" then [] else [s[..LineEnd(s)]] + Lines(s[LineEnd(s)..])
  }

  function Join(lines: seq<string>): string {
    if lines == [] then "" else lines[0] + Join(lines[1..])
  }

  predicate StartsWith(s: string, prefix: string) {
    |prefix| <= |s| && s[..|prefix|] == prefix
  }

  predicate EndsWith(s: string, suffix: string) {
    |suffix| <= |s| && s[|s| - |suffix|..] == suffix
  }

  /** Nothing that follows can join the last line, unless it starts with a newline. */
  predicate Closed(s: string) {
    s == "" || IsBreak(s[|s| - 1])
  }

  function StripLeft(s: string): string {
    if s != "" && IsSpace(s[0]) then StripLeft(s[1..]) else s
  }

  function StripRight(s: string): string {
    if s != "" && IsSpace(s[|s| - 1]) then StripRight(s[..|s| - 1]) else s
  }

  function Strip(s: string): string {
    StripRight(StripLeft(s))
  }

  // ----- cutting and joining

  lemma {:induction false} JoinLines(s: string)
    ensures Join(Lines(s)) == s
  {
    if s != "" {
      JoinLines(s[LineEnd(s)..]);
      assert s[..LineEnd(s)] + s[LineEnd(s)..] == s;
    }
  }

  lemma {:induction false} JoinConcat(a: seq<string>, b: seq<string>)
    ensures Join(a + b) == Join(a) + Join(b)
  {
    if a == [] {
      assert a + b == b;
    } else {
      assert (a + b)[1..] == a[1..] + b;
      JoinConcat(a[1..], b);
    }
  }

  /** A terminated line stays as it is whatever follows it. */
  lemma {:induction false} LineEndConcat(a: string, b: string)
    requires a != ""
    requires LineEnd(a) < |a| || (Terminated(a) && !Merges(a, b))
    ensures LineEnd(a + b) == LineEnd(a)
  {
    var ab := a + b;
    if (a[0] == '\r' && |a| > 1 && a[1] == '\n') || IsBreak(a[0]) {
      assert ab[0] == a[0] && (|a| > 1 ==> ab[1] == a[1]) && (|a| == 1 && b != "" ==> ab[1] == b[0]);
    } else {
      assert ab[1..] == a[1..] + b;
      assert |a| > 1;
      LineEndConcat(a[1..], b);
    }
  }

  /** One line, then the rest. */
  lemma LinesCons(head: string, tail: string)
    requires IsLine(head) && (tail == "" || (Terminated(head) && !Merges(head, tail)))
    ensures Lines(head + tail) == [head] + Lines(tail)
  {
    if tail == "" {
      assert head + tail == head && head[..|head|] == head && head[|head|..] == "";
    } else {
      LineEndConcat(head, tail);
      assert (head + tail)[..|head|] == head && (head + tail)[|head|..] == tail;
    }
  }

  /** A text is its first line and the rest. */
  lemma FirstLine(s: string)
    requires s != ""
    ensures var head, tail := s[..LineEnd(s)], s[LineEnd(s)..];
      && s == head + tail && IsLine(head) && |tail| < |s| && Lines(s) == [head] + Lines(tail)
      && (tail != "" ==> Terminated(head) && !Merges(head, tail) && tail[|tail| - 1] == s[|s| - 1])
  {
    LineEndIs(s);
    LineSplit(s, LineEnd(s));
  }

  lemma LineSplit(s: string, n: nat)
    requires 0 < n <= |s|
    requires n < |s| ==> IsBreak(s[n - 1]) && (s[n - 1] == '\r' ==> s[n] != '\n')
    ensures var head, tail := s[..n], s[n..];
      && s == head + tail
      && (tail != "" ==> Terminated(head) && !Merges(head, tail) && tail[|tail| - 1] == s[|s| - 1])
  {
  }

  lemma MergesStart(l: string, a: string, b: string)
    requires a != ""
    ensures Merges(l, a + b) == Merges(l, a)
  {
  }

  lemma {:induction false} LinesConcat(a: string, b: string)
    requires Closed(a) && !Merges(a, b)
    ensures Lines(a + b) == Lines(a) + Lines(b)
  {
    if a == "" {
      assert a + b == b;
    } else {
      var head, tail := a[..LineEnd(a)], a[LineEnd(a)..];
      FirstLine(a);
      Regroup(head, tail, b);
      if tail == "" {
        assert head == a && tail + b == b;
      } else {
        MergesStart(head, tail, b);
      }
      LinesConcat(tail, b);
      LinesCons(head, tail + b);
      Regroup([head], Lines(tail), Lines(b));
    }
  }

  lemma Regroup<T>(a: seq<T>, b: seq<T>, c: seq<T>)
    ensures (a + b) + c == a + (b + c)
  {
  }

  /** What `Lines` yields: each line's text, then its terminator. */
  lemma {:induction false} LineEndIs(s: string)
    requires s != ""
    ensures LineEnd(s) < |s| ==> IsBreak(s[LineEnd(s) - 1])
    ensures LineEnd(s[..LineEnd(s)]) == LineEnd(s)
    ensures LineEnd(s) < |s| && s[LineEnd(s) - 1] == '\r' ==> s[LineEnd(s)] != '\n'
  {
    var n := LineEnd(s);
    if (s[0] == '\r' && |s| > 1 && s[1] == '\n') || IsBreak(s[0]) {
      assert s[..n][0] == s[0];
    } else if |s| > 1 {
      LineEndIs(s[1..]);
      assert s[..n][1..] == s[1..][..n - 1];
    } else {
      assert s[..n] == s;
    }
  }

  /** Exactly one line: not empty, and cut nowhere inside. */
  predicate IsLine(l: string) {
    l != "" && LineEnd(l) == |l|
  }

  /** A list of lines `Lines` could have produced. */
  ghost predicate Proper(lines: seq<string>) {
    && (forall i :: 0 <= i < |lines| ==> IsLine(lines[i]))
    && (forall i :: 0 <= i < |lines| - 1 ==> Terminated(lines[i]) && !Merges(lines[i], lines[i + 1]))
  }

  predicate Terminated(l: string) {
    l != "" && IsBreak(l[|l| - 1])
  }

  predicate Merges(l: string, next: string) {
    l != "" && l[|l| - 1] == '\r' && next != "" && next[0] == '\n'
  }

  lemma {:induction false} LinesAreProper(s: string)
    ensures Proper(Lines(s))
    ensures s != "" ==> Lines(s) != [] && (Closed(s) <==> Terminated(Lines(s)[|Lines(s)| - 1]))
  {
    if s != "" {
      var head, tail := s[..LineEnd(s)], s[LineEnd(s)..];
      FirstLine(s);
      LinesAreProper(tail);
      if tail == "" {
        assert head == s && Lines(s) == [head];
      } else {
        assert Lines(tail)[0] == tail[..LineEnd(tail)];
        ProperCons(head, Lines(tail));
      }
    }
  }

  lemma ProperCons(head: string, lines: seq<string>)
    requires IsLine(head) && Proper(lines)
    requires lines != [] ==> Terminated(head) && !Merges(head, lines[0])
    ensures Proper([head] + lines)
  {
    var all := [head] + lines;
    forall i | 0 <= i < |all| - 1
      ensures Terminated(all[i]) && !Merges(all[i], all[i + 1])
    {
      if i > 0 {
        assert all[i] == lines[i - 1] && all[i + 1] == lines[i];
      }
    }
  }

  lemma {:induction false} LinesOfJoin(lines: seq<string>)
    requires Proper(lines)
    ensures Lines(Join(lines)) == lines
  {
    if lines != [] {
      var l, rest := lines[0], Join(lines[1..]);
      LinesOfJoin(lines[1..]);
      if |lines| > 1 {
        assert rest[0] == lines[1][0];
      }
      LinesCons(l, rest);
    }
  }

  /** No line boundary inside. */
  predicate OneLine(l: string) {
    forall i :: 0 <= i < |l| ==> !IsBreak(l[i])
  }

  lemma {:induction false} LineOf(l: string)
    requires OneLine(l)
    ensures IsLine(l + "\n") && (l != "" ==> IsLine(l))
  {
    if l != "" {
      assert (l + "\n")[1..] == l[1..] + "\n";
      LineOf(l[1..]);
    }
  }

  // ----- searching

  predicate At(s: string, needle: string, i: nat) {
    i + |needle| <= |s| && s[i..i + |needle|] == needle
  }

  /** The first place at or after `from`; the length of `s` when there is none. */
  function Find(s: string, needle: string, from: nat): (i: nat)
    requires from <= |s| && needle != ""
    ensures from <= i <= |s| && (i < |s| ==> At(s, needle, i))
    ensures forall j :: from <= j < i ==> !At(s, needle, j)
    decreases |s| - from
  {
    if from == |s| || At(s, needle, from) then from else Find(s, needle, from + 1)
  }

  lemma FindIs(s: string, needle: string, from: nat, i: nat)
    requires needle != "" && from <= i < |s| && At(s, needle, i)
    requires forall j :: from <= j < i ==> !At(s, needle, j)
    ensures Find(s, needle, from) == i
  {
  }
}
