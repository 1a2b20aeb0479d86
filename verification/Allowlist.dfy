/** What a refresh run may push (`partition`, `_restore`, `_enforce` and the `git add` of `scripts/refresh_pr.py`):
    git reports a wholly new directory as one entry, and adding that entry adds every file below it. */
module Allowlist {
  import opened Globs

  datatype Change = Change(path: string, untracked: bool)

  predicate Allowed(path: string, allowlist: seq<string>) {
    exists i :: 0 <= i < |allowlist| && Matches(allowlist[i], path)
  }

  function Keep(changes: seq<Change>, allowlist: seq<string>, allowed: bool): seq<Change> {
    if changes == [] then []
    else (if Allowed(changes[0].path, allowlist) == allowed then [changes[0]] else []) + Keep(changes[1..], allowlist, allowed)
  }

  /** `partition`. */
  method Partition(changes: seq<Change>, allowlist: seq<string>) returns (allowed: seq<Change>, disallowed: seq<Change>)
    ensures allowed == Keep(changes, allowlist, true) && disallowed == Keep(changes, allowlist, false)
  {
    allowed, disallowed := [], [];
    for i := 0 to |changes|
      invariant allowed + Keep(changes[i..], allowlist, true) == Keep(changes, allowlist, true)
      invariant disallowed + Keep(changes[i..], allowlist, false) == Keep(changes, allowlist, false)
    {
      assert changes[i..][1..] == changes[i + 1..];
      if Allowed(changes[i].path, allowlist) {
        allowed := allowed + [changes[i]];
      } else {
        disallowed := disallowed + [changes[i]];
      }
    }
  }

  predicate IsDirectory(path: string) {
    path != "" && path[|path| - 1] == '/'
  }

  /** The files an entry stands for: itself, or everything below a directory. */
  predicate Covers(c: Change, file: string) {
    if IsDirectory(c.path) then c.path <= file else c.path == file
  }

  /** What `git add` of the allowed entries takes into the commit. */
  ghost predicate Committed(changes: seq<Change>, allowlist: seq<string>, file: string) {
    exists c :: c in Keep(changes, allowlist, true) && Covers(c, file)
  }

  lemma {:induction false} KeepIff(changes: seq<Change>, allowlist: seq<string>, allowed: bool, c: Change)
    ensures c in Keep(changes, allowlist, allowed) <==> c in changes && Allowed(c.path, allowlist) == allowed
  {
    if changes != [] {
      KeepIff(changes[1..], allowlist, allowed, c);
      assert changes == [changes[0]] + changes[1..];
    }
  }

  // ----- patterns from the end

  lemma {:induction false} LastMatches(q: string, c: char, s: string)
    requires c != '*'
    ensures Matches(q + [c], s) <==> s != "" && (c == '?' || s[|s| - 1] == c) && Matches(q, s[..|s| - 1])
    decreases |q| + |s|
  {
    if q == "" {
      assert q + [c] == [c] && [c][1..] == "";
      assert s != "" ==> (Matches("", s[1..]) <==> |s| == 1);
    } else {
      assert (q + [c])[1..] == q[1..] + [c];
      LastMatches(q[1..], c, s);
      if s != "" {
        LastMatches(q, c, s[1..]);
        LastMatches(q[1..], c, s[1..]);
        assert |s| > 1 ==> s[1..][..|s| - 2] == s[..|s| - 1][1..] && s[1..][|s| - 2] == s[|s| - 1];
      }
    }
  }

  lemma {:induction false} StarMatches(q: string, s: string)
    ensures Matches(q + "*", s) <==> exists k :: 0 <= k <= |s| && Matches(q, s[..k])
    decreases |q| + |s|
  {
    if q == "" {
      assert q + "*" == Stars(1);
      StarsAlone(1, s);
      assert s[..0] == "";
    } else {
      assert (q + "*")[1..] == q[1..] + "*";
      StarMatches(q[1..], s);
      if s != "" {
        StarMatches(q, s[1..]);
        StarMatches(q[1..], s[1..]);
      }
      StarFirstChar(q, s);
    }
  }

  /** A prefix of a text is matched from its first character on. */
  lemma StarFirstChar(q: string, s: string)
    requires q != ""
    ensures (exists k :: 0 <= k <= |s| && Matches(q, s[..k]))
       <==> if q[0] == '*' then
              (exists k :: 0 <= k <= |s| && Matches(q[1..], s[..k]))
              || (s != "" && exists k :: 0 <= k <= |s[1..]| && Matches(q, s[1..][..k]))
            else s != "" && (q[0] == '?' || q[0] == s[0]) && exists k :: 0 <= k <= |s[1..]| && Matches(q[1..], s[1..][..k])
  {
    forall k | 0 < k <= |s|
      ensures s[..k][1..] == s[1..][..k - 1]
    {
    }
    if s != "" {
      if k :| 0 <= k <= |s[1..]| && Matches(q, s[1..][..k]) {
        assert s[..k + 1][1..] == s[1..][..k];
      }
      if k :| 0 <= k <= |s[1..]| && Matches(q[1..], s[1..][..k]) {
        assert s[..k + 1][1..] == s[1..][..k];
      }
    }
    if k :| 0 <= k <= |s| && Matches(q, s[..k]) {
      assert k > 0 ==> s[..k][1..] == s[1..][..k - 1];
    }
  }

  // ----- patterns that take a directory take what is below it

  function Marks(n: nat): (s: string)
    ensures |s| == n && forall i :: 0 <= i < n ==> s[i] == '?'
  {
    seq(n, _ => '?')
  }

  function TrailingMarks(p: string): (n: nat)
    ensures n <= |p| && (forall i :: |p| - n <= i < |p| ==> p[i] == '?') && (n < |p| ==> p[|p| - n - 1] != '?')
  {
    if p != "" && p[|p| - 1] == '?' then 1 + TrailingMarks(p[..|p| - 1]) else 0
  }

  lemma {:induction false} MarksSplit(p: string)
    ensures p == p[..|p| - TrailingMarks(p)] + Marks(TrailingMarks(p))
  {
    var n := TrailingMarks(p);
    var m := |p| - n;
    assert |p[..m] + Marks(n)| == |p|;
    forall i | 0 <= i < |p|
      ensures (p[..m] + Marks(n))[i] == p[i]
    {
      if i >= m {
        assert Marks(n)[i - m] == '?';
      }
    }
  }

  /** No two slashes in a row. */
  predicate NoEmptyPart(s: string) {
    forall i :: 0 <= i < |s| - 1 ==> s[i] != '/' || s[i + 1] != '/'
  }

  /** The part `w` of a path ending in a slash, at its beginning or behind a slash. */
  predicate PartAt(s: string, w: string, i: nat) {
    i + |w| < |s| && s[i..i + |w|] == w && s[i + |w|] == '/' && (i == 0 || s[i - 1] == '/')
  }

  /** Parts no path that git reports has. */
  const NEVER := [".", "..", ".git"]

  predicate HasPart(s: string, w: string) {
    exists i :: 0 <= i < |s| && PartAt(s, w, i)
  }

  predicate IsPlain(s: string) {
    s != "" && s[0] != '/' && NoEmptyPart(s) && forall w :: w in NEVER ==> !HasPart(s, w)
  }

  /** A directory as git reports it: no part of its path is empty, `.`, `..` or `.git`. */
  predicate IsReported(d: string) {
    IsDirectory(d) && IsPlain(d)
  }

  /** Whatever reported directory the pattern matches, it matches everything below. */
  ghost predicate Closed(p: string) {
    forall d, x :: IsReported(d) && Matches(p, d) ==> Matches(p, d + x)
  }

  /** A pattern that takes everything below what it takes, to be read off its end: no slash there, and no question marks
      but behind a star. */
  predicate EndsClosed(p: string) {
    var n := TrailingMarks(p);
    if n == 0 then !IsDirectory(p) else n < |p| && p[|p| - n - 1] == '*'
  }

  /** What the pattern asks of a directory: a question mark at its end can only stand for the slash. */
  function AsDirectory(p: string): string {
    if p != "" && p[|p| - 1] == '?' then p[..|p| - 1] + "/" else p
  }

  /** A pattern that some reported directory may match. */
  predicate FitsDirectory(p: string) {
    IsPlain(AsDirectory(p))
  }

  predicate IsClosed(p: string) {
    EndsClosed(p) || !FitsDirectory(p)
  }

  lemma {:induction false} MarksMatch(w: string, n: nat, s: string)
    ensures Matches(w + Marks(n), s) <==> |s| >= n && Matches(w, s[..|s| - n])
  {
    if n == 0 {
      assert w + Marks(0) == w && s[..|s|] == s;
    } else {
      assert w + Marks(n) == (w + Marks(n - 1)) + ['?'];
      LastMatches(w + Marks(n - 1), '?', s);
      if s != "" {
        MarksMatch(w, n - 1, s[..|s| - 1]);
        assert |s| >= n ==> s[..|s| - 1][..|s| - n] == s[..|s| - n];
      }
    }
  }

  lemma StarIsClosed(q: string, n: nat, d: string, x: string)
    requires Matches((q + "*") + Marks(n), d)
    ensures Matches((q + "*") + Marks(n), d + x)
  {
    MarksMatch(q + "*", n, d);
    MarksMatch(q + "*", n, d + x);
    var a, b := d[..|d| - n], (d + x)[..|d + x| - n];
    StarMatches(q, a);
    StarMatches(q, b);
    var k :| 0 <= k <= |a| && Matches(q, a[..k]);
    assert b[..k] == a[..k];
  }

  lemma EndsClosedIsClosed(p: string, d: string, x: string)
    requires EndsClosed(p) && IsDirectory(d) && Matches(p, d)
    ensures Matches(p, d + x)
  {
    var n := TrailingMarks(p);
    var w := p[..|p| - n];
    MarksSplit(p);
    if w != "" && w[|w| - 1] == '*' {
      assert w == w[..|w| - 1] + "*";
      StarIsClosed(w[..|w| - 1], n, d, x);
    } else {
      assert n == 0 && w == p;
      assert p != "" ==> p == p[..|p| - 1] + [p[|p| - 1]];
      if p != "" {
        LastMatches(p[..|p| - 1], p[|p| - 1], d);
      }
    }
  }

  // ----- patterns no reported directory matches

  lemma PrefixMatches(p: string, w: string, s: string)
    requires w <= p && Literal(w) && Matches(p, s)
    ensures w <= s
  {
    assert p == w + p[|w|..];
    LiteralMatches(w, p[|w|..], s);
  }

  /** A stretch of the pattern without wildcards stands in every match. */
  lemma {:induction false} StretchMatches(p: string, i: nat, w: string, s: string) returns (j: nat)
    requires i + |w| <= |p| && p[i..i + |w|] == w && Literal(w) && Matches(p, s)
    ensures j + |w| <= |s| && s[j..j + |w|] == w && (i == 0 ==> j == 0)
    decreases |p| + |s|
  {
    if i == 0 {
      assert w <= p;
      PrefixMatches(p, w, s);
      j := 0;
    } else {
      assert p[1..][i - 1..i - 1 + |w|] == w;
      if p[0] == '*' && Matches(p[1..], s) {
        j := StretchMatches(p[1..], i - 1, w, s);
      } else {
        j := StretchMatches(if p[0] == '*' then p else p[1..], if p[0] == '*' then i else i - 1, w, s[1..]);
        assert s[j + 1..j + 1 + |w|] == s[1..][j..j + |w|];
        j := j + 1;
      }
    }
  }

  lemma EmptyPartMatches(q: string, d: string)
    requires !NoEmptyPart(q) && Matches(q, d)
    ensures !NoEmptyPart(d)
  {
    var i :| 0 <= i < |q| - 1 && q[i] == '/' && q[i + 1] == '/';
    assert q[i..i + |"//"|] == "//";
    var j := StretchMatches(q, i, "//", d);
    assert d[j] == d[j..j + |"//"|][0] && d[j + 1] == d[j..j + |"//"|][1];
  }

  lemma PartMatches(q: string, w: string, d: string)
    requires HasPart(q, w) && Literal(w) && Matches(q, d)
    ensures HasPart(d, w)
  {
    var i :| 0 <= i < |q| && PartAt(q, w, i);
    if i == 0 {
      Stretch(q, 0, "", w);
      var j := StretchMatches(q, 0, "" + w + "/", d);
      StretchPart(d, 0, "", w);
    } else {
      Stretch(q, i - 1, "/", w);
      var j := StretchMatches(q, i - 1, "/" + w + "/", d);
      StretchPart(d, j, "/", w);
    }
  }

  lemma Stretch(s: string, i: nat, front: string, w: string)
    requires i + |front| + |w| < |s| && s[i..i + |front|] == front
    requires s[i + |front|..i + |front| + |w|] == w && s[i + |front| + |w|] == '/'
    ensures s[i..i + |front + w + "/"|] == front + w + "/"
  {
  }

  lemma StretchPart(s: string, j: nat, front: string, w: string)
    requires j + |front + w + "/"| <= |s| && s[j..j + |front + w + "/"|] == front + w + "/"
    requires front == "/" || (front == "" && j == 0)
    ensures HasPart(s, w)
  {
    var t, k := front + w + "/", j + |front|;
    assert s[k..k + |w|] == t[|front|..|front| + |w|] == w;
    assert s[k + |w|] == t[|front| + |w|];
    assert front == "/" ==> s[j] == t[0];
    assert PartAt(s, w, k);
  }

  lemma NotPlain(q: string, d: string)
    requires q != "" && !IsPlain(q) && Matches(q, d)
    ensures !IsPlain(d)
  {
    if q[0] != '/' {
      if !NoEmptyPart(q) {
        EmptyPartMatches(q, d);
      } else {
        var w :| w in NEVER && HasPart(q, w);
        PartMatches(q, w, d);
      }
    }
  }

  lemma NoneFits(p: string, d: string)
    requires !EndsClosed(p) && !FitsDirectory(p) && IsDirectory(d) && Matches(p, d)
    ensures !IsReported(d)
  {
    if p[|p| - 1] == '?' {
      var w := p[..|p| - 1];
      assert p == w + ['?'] && AsDirectory(p) == w + ['/'];
      LastMatches(w, '?', d);
      LastMatches(w, '/', d);
    }
    NotPlain(AsDirectory(p), d);
  }

  // ----- patterns that let in more

  /** A text the pattern matches, with a letter for each wildcard. */
  function Instance(p: string): (s: string)
    ensures |s| == |p| && forall i :: 0 <= i < |p| ==> s[i] == if p[i] == '*' || p[i] == '?' then 'a' else p[i]
  {
    seq(|p|, i requires 0 <= i < |p| => if p[i] == '*' || p[i] == '?' then 'a' else p[i])
  }

  lemma {:induction false} InstanceMatches(p: string)
    ensures Matches(p, Instance(p))
  {
    if p != "" {
      InstanceMatches(p[1..]);
      assert Instance(p)[1..] == Instance(p[1..]);
      if p[0] == '*' {
        StarTakes(p, Instance(p));
      }
    }
  }

  lemma StarTakes(p: string, s: string)
    requires p != "" && p[0] == '*' && s != "" && Matches(p[1..], s[1..])
    ensures Matches(p, s)
  {
    assert Matches(p, s[1..]);
  }

  /** The letter is in no part that git leaves out. */
  lemma InstanceIsPlain(q: string)
    requires IsPlain(q)
    ensures IsPlain(Instance(q))
  {
    var s := Instance(q);
    forall w | w in NEVER
      ensures !HasPart(s, w)
    {
      forall i | 0 <= i < |s|
        ensures !PartAt(s, w, i)
      {
        InstancePart(q, w, i);
      }
    }
  }

  lemma InstancePart(q: string, w: string, i: nat)
    requires 'a' !in w
    ensures PartAt(Instance(q), w, i) ==> PartAt(q, w, i)
  {
    var s := Instance(q);
    if PartAt(s, w, i) {
      forall k | 0 <= k < |w|
        ensures q[i + k] == w[k]
      {
        assert s[i + k] == s[i..i + |w|][k] == w[k];
      }
    }
  }

  function Filler(c: char, n: nat): (s: string)
    ensures |s| == n && forall i :: 0 <= i < n ==> s[i] == c
  {
    seq(n, _ => c)
  }

  /** A directory some such pattern matches, and a file below it that it does not. */
  lemma NotClosed(p: string) returns (d: string, x: string)
    requires !EndsClosed(p) && FitsDirectory(p)
    ensures IsReported(d) && Matches(p, d) && x != "" && !IsDirectory(x) && !Matches(p, d + x)
  {
    d := Instance(AsDirectory(p));
    InstanceIsPlain(AsDirectory(p));
    InstanceMatches(AsDirectory(p));
    var n := TrailingMarks(p);
    if n == 0 {
      x := "x";
      assert p == p[..|p| - 1] + ['/'];
      LastMatches(p[..|p| - 1], '/', d + x);
    } else {
      var w := p[..|p| - 1];
      assert p == w + ['?'] && AsDirectory(p) == w + ['/'];
      LastMatches(w, '/', d);
      LastMatches(w, '?', d);
      x := MarksNotClosed(p, n, d);
    }
  }

  lemma MarksNotClosed(p: string, n: nat, d: string) returns (x: string)
    requires n == TrailingMarks(p) > 0 && !EndsClosed(p) && Matches(p, d)
    ensures x != "" && !IsDirectory(x) && !Matches(p, d + x)
  {
    var w := p[..|p| - n];
    MarksSplit(p);
    var c := if w != "" && w[|w| - 1] == 'a' then 'b' else 'a';
    x := Filler(c, n + 1);
    MarksMatch(w, n, d + x);
    TailNotMatched(w, (d + x)[..|d + x| - n], x);
  }

  lemma TailNotMatched(w: string, s: string, x: string)
    requires s != "" && x != "" && s[|s| - 1] == x[0] && (w != "" ==> w[|w| - 1] != '*' && w[|w| - 1] != '?' && w[|w| - 1] != x[0])
    ensures !Matches(w, s)
  {
    if w != "" {
      assert w == w[..|w| - 1] + [w[|w| - 1]];
      LastMatches(w[..|w| - 1], w[|w| - 1], s);
    }
  }

  /** Whether a pattern may let in more than it matches can be read off it. */
  lemma ClosedIff(p: string)
    ensures Closed(p) <==> IsClosed(p)
  {
    if IsClosed(p) {
      forall d, x | IsReported(d) && Matches(p, d)
        ensures Matches(p, d + x)
      {
        if EndsClosed(p) {
          EndsClosedIsClosed(p, d, x);
        } else {
          NoneFits(p, d);
        }
      }
    } else {
      var d, x := NotClosed(p);
    }
  }

  /** What `git status` reports. */
  predicate Reported(changes: seq<Change>) {
    forall c :: c in changes && IsDirectory(c.path) ==> IsReported(c.path)
  }

  /** With such patterns every file pushed is matched by the allowlist. */
  lemma PushedIsAllowed(changes: seq<Change>, allowlist: seq<string>, file: string)
    requires Reported(changes) && forall i :: 0 <= i < |allowlist| ==> IsClosed(allowlist[i])
    requires Committed(changes, allowlist, file)
    ensures Allowed(file, allowlist)
  {
    var c :| c in Keep(changes, allowlist, true) && Covers(c, file);
    KeepIff(changes, allowlist, true, c);
    var i :| 0 <= i < |allowlist| && Matches(allowlist[i], c.path);
    if IsDirectory(c.path) {
      ClosedIff(allowlist[i]);
      assert Matches(allowlist[i], c.path + file[|c.path|..]);
      assert c.path + file[|c.path|..] == file;
    }
    assert Matches(allowlist[i], file);
  }

  /** With any other pattern alone, some run pushes a file the allowlist does not match. */
  lemma OtherPatternsLeak(p: string) returns (changes: seq<Change>, file: string)
    requires !IsClosed(p)
    ensures Reported(changes) && Committed(changes, [p], file) && !Allowed(file, [p])
  {
    var d, x := NotClosed(p);
    var c := Change(d, true);
    changes, file := [c], d + x;
    assert Matches([p][0], d);
    KeepIff(changes, [p], true, c);
    assert c in changes && Covers(c, file);
  }

  /** The patterns the workflows pass. */
  lemma ConfiguredPatternsAreClosed()
    ensures IsClosed("roadmaps/**") && IsClosed("docs/**") && IsClosed("DESIGN.md")
  {
  }
}
