/** Recording a log stream and reading it back: lines out of whatever chunks arrive
    (`scripts/synthesis_stream_record.py`), and lines that arrived out of order
    (`scripts/synthesis_stream_report.py`). */
module LogStream {

  type Byte = bv8

  const NEWLINE: Byte := 10

  // ----- lines

  /** The pieces between newlines; what follows the last newline is a piece too, if only an empty one. */
  function Pieces(s: seq<Byte>): (r: seq<seq<Byte>>)
    ensures |r| > 0
  {
    if s == [] then [[]]
    else
      var rest := Pieces(s[1..]);
      if s[0] == NEWLINE then [[]] + rest else [[s[0]] + rest[0]] + rest[1..]
  }

  /** A stream's lines: its pieces, without an empty last one. */
  function StreamLines(s: seq<Byte>): seq<seq<Byte>> {
    var r := Pieces(s);
    if r[|r| - 1] == [] then r[..|r| - 1] else r
  }

  /** The last piece of one part runs on into the first of the next. */
  lemma {:induction false} PiecesConcat(a: seq<Byte>, b: seq<Byte>)
    ensures Pieces(a + b) == Join(Pieces(a), Pieces(b))
  {
    var q := Pieces(b);
    if a == [] {
      assert a + b == b;
      assert [[] + q[0]] + q[1..] == q by { assert [] + q[0] == q[0]; }
    } else {
      PiecesConcat(a[1..], b);
      assert (a + b)[1..] == a[1..] + b && (a + b)[0] == a[0];
      PiecesCons(a[0], Pieces(a[1..]), q, Pieces(a[1..] + b));
    }
  }

  function Join(p: seq<seq<Byte>>, q: seq<seq<Byte>>): seq<seq<Byte>>
    requires |p| > 0 && |q| > 0
  {
    p[..|p| - 1] + ([p[|p| - 1] + q[0]] + q[1..])
  }

  function Grown(c: Byte, p: seq<seq<Byte>>): (r: seq<seq<Byte>>)
    requires |p| > 0
    ensures |r| > 0
  {
    if c == NEWLINE then [[]] + p else [[c] + p[0]] + p[1..]
  }

  lemma PiecesCons(c: Byte, p: seq<seq<Byte>>, q: seq<seq<Byte>>, pq: seq<seq<Byte>>)
    requires |p| > 0 && |q| > 0 && pq == Join(p, q)
    ensures Grown(c, pq) == Join(Grown(c, p), q)
  {
    var g := Grown(c, p);
    if c == NEWLINE {
      assert g[..|g| - 1] == [[]] + p[..|p| - 1];
    } else if |p| == 1 {
      assert pq == [p[0] + q[0]] + q[1..];
      assert [c] + (p[0] + q[0]) == ([c] + p[0]) + q[0];
    } else {
      assert pq[0] == p[0] && pq[1..] == Join(p[1..], q);
      assert g[..|g| - 1] == [[c] + p[0]] + p[1..|p| - 1];
    }
  }

  function Flatten(chunks: seq<seq<Byte>>): seq<Byte> {
    if chunks == [] then [] else Flatten(chunks[..|chunks| - 1]) + chunks[|chunks| - 1]
  }

  /** `_pty_lines`: each chunk read is split, its complete lines are out, and the rest waits for more. Whatever the
      chunks, the lines are those of the stream. */
  method PtyLines(chunks: seq<seq<Byte>>) returns (lines: seq<seq<Byte>>)
    ensures lines == StreamLines(Flatten(chunks))
  {
    lines := [];
    var buf: seq<Byte> := [];
    for k := 0 to |chunks|
      invariant NEWLINE !in buf && Pieces(Flatten(chunks[..k])) == lines + [buf]
    {
      assert chunks[..k + 1][..k] == chunks[..k];
      ChunkArrives(Flatten(chunks[..k]), chunks[k], lines, buf);
      var pieces := Pieces(buf + chunks[k]);
      lines := lines + pieces[..|pieces| - 1];
      buf := pieces[|pieces| - 1];
    }
    assert chunks[..|chunks|] == chunks;
    assert (lines + [buf])[..|lines|] == lines;
    if buf != [] {
      lines := lines + [buf];
    }
  }

  /** What waits runs on into the next chunk. */
  lemma ChunkArrives(s: seq<Byte>, chunk: seq<Byte>, lines: seq<seq<Byte>>, buf: seq<Byte>)
    requires NEWLINE !in buf && Pieces(s) == lines + [buf]
    ensures var p := Pieces(buf + chunk);
      Pieces(s + chunk) == (lines + p[..|p| - 1]) + [p[|p| - 1]] && NEWLINE !in p[|p| - 1]
  {
    PiecesConcat(s, chunk);
    BufferedPieces(buf, chunk);
    LastPiece(buf + chunk);
    JoinBehind(lines, buf, Pieces(chunk));
    ButLast(lines, Pieces(buf + chunk));
  }

  lemma BufferedPieces(buf: seq<Byte>, chunk: seq<Byte>)
    requires NEWLINE !in buf
    ensures var q := Pieces(chunk); Pieces(buf + chunk) == [buf + q[0]] + q[1..]
  {
    PiecesConcat(buf, chunk);
    OnePiece(buf);
    JoinBehind([], buf, Pieces(chunk));
    assert [] + [buf] == [buf];
  }

  lemma JoinBehind(lines: seq<seq<Byte>>, buf: seq<Byte>, q: seq<seq<Byte>>)
    requires |q| > 0
    ensures Join(lines + [buf], q) == lines + ([buf + q[0]] + q[1..])
  {
    assert (lines + [buf])[..|lines|] == lines;
  }

  lemma ButLast(lines: seq<seq<Byte>>, p: seq<seq<Byte>>)
    requires |p| > 0
    ensures lines + p == (lines + p[..|p| - 1]) + [p[|p| - 1]]
  {
  }

  lemma {:induction false} LastPiece(s: seq<Byte>)
    ensures NEWLINE !in Pieces(s)[|Pieces(s)| - 1]
  {
    if s != [] {
      LastPiece(s[1..]);
    }
  }

  lemma {:induction false} OnePiece(s: seq<Byte>)
    requires NEWLINE !in s
    ensures Pieces(s) == [s]
  {
    if s != [] {
      OnePiece(s[1..]);
      assert [s[0]] + s[1..] == s;
    }
  }

  // ----- what a stream's lines are

  /** The pieces put together again, a newline between each two. */
  function Joined(p: seq<seq<Byte>>): seq<Byte>
    requires |p| > 0
  {
    if |p| == 1 then p[0] else p[0] + ([NEWLINE] + Joined(p[1..]))
  }

  predicate NoNewline(p: seq<seq<Byte>>) {
    forall i :: 0 <= i < |p| ==> NEWLINE !in p[i]
  }

  lemma {:induction false} JoinedPieces(p: seq<seq<Byte>>)
    requires |p| > 0 && NoNewline(p)
    ensures Pieces(Joined(p)) == p
  {
    if |p| == 1 {
      OnePiece(p[0]);
      assert p == [p[0]];
    } else {
      var rest := Joined(p[1..]);
      JoinedPieces(p[1..]);
      BufferedPieces(p[0], [NEWLINE] + rest);
      assert ([NEWLINE] + rest)[1..] == rest;
      assert p[0] + [] == p[0] && p == [p[0]] + p[1..];
    }
  }

  lemma {:induction false} PiecesJoined(s: seq<Byte>)
    ensures Joined(Pieces(s)) == s
  {
    if s != [] {
      PiecesJoined(s[1..]);
      JoinedMore(s[0], Pieces(s[1..]));
      assert s == [s[0]] + s[1..];
    }
  }

  lemma {:induction false} PiecesAreClean(s: seq<Byte>)
    ensures forall l :: l in Pieces(s) ==> NEWLINE !in l
  {
    if s != [] {
      PiecesAreClean(s[1..]);
      var p := Pieces(s[1..]);
      forall l | l in Pieces(s)
        ensures NEWLINE !in l
      {
        GrownPiece(s[0], p, l);
      }
    }
  }

  lemma GrownPiece(c: Byte, p: seq<seq<Byte>>, l: seq<Byte>)
    requires |p| > 0 && l in Grown(c, p)
    ensures l in p || l == [] || (c != NEWLINE && l == [c] + p[0] && p[0] in p)
  {
    var i :| 0 <= i < |Grown(c, p)| && Grown(c, p)[i] == l;
    if c != NEWLINE && i > 0 {
      assert l == p[i];
    }
  }

  lemma JoinedMore(c: Byte, p: seq<seq<Byte>>)
    requires |p| > 0
    ensures Joined(Grown(c, p)) == [c] + Joined(p)
  {
    if c == NEWLINE {
      JoinedCons([], p);
      Behind(c, [], Joined(p));
    } else {
      JoinedLonger(c, p);
    }
  }

  lemma JoinedLonger(c: Byte, p: seq<seq<Byte>>)
    requires |p| > 0
    ensures Joined([[c] + p[0]] + p[1..]) == [c] + Joined(p)
  {
    assert p == [p[0]] + p[1..];
    if |p| > 1 {
      JoinedCons(p[0], p[1..]);
      JoinedCons([c] + p[0], p[1..]);
      Behind(c, p[0], [NEWLINE] + Joined(p[1..]));
    }
  }

  lemma JoinedCons(l: seq<Byte>, p: seq<seq<Byte>>)
    requires |p| > 0
    ensures Joined([l] + p) == l + ([NEWLINE] + Joined(p))
  {
    assert ([l] + p)[1..] == p;
  }

  lemma Behind(c: Byte, a: seq<Byte>, b: seq<Byte>)
    ensures ([c] + a) + b == [c] + (a + b) && [] + b == b && [c] + [] == [c]
  {
  }

  /** The lines of a stream: none has a newline inside, each but perhaps a last, unfinished one is followed by one, and
      together they are the stream. */
  ghost predicate AreLines(s: seq<Byte>, lines: seq<seq<Byte>>) {
    NoNewline(lines) && (s == Joined(lines + [[]]) || (lines != [] && lines[|lines| - 1] != [] && s == Joined(lines)))
  }

  lemma StreamLinesIff(s: seq<Byte>, lines: seq<seq<Byte>>)
    ensures lines == StreamLines(s) <==> AreLines(s, lines)
  {
    LinesAre(s);
    if AreLines(s, lines) {
      LinesAreOnly(s, lines);
    }
  }

  lemma LinesAre(s: seq<Byte>)
    ensures AreLines(s, StreamLines(s))
  {
    var r := Pieces(s);
    PiecesJoined(s);
    PiecesAreClean(s);
    if r[|r| - 1] == [] {
      assert r == r[..|r| - 1] + [[]];
    }
  }

  lemma LinesAreOnly(s: seq<Byte>, lines: seq<seq<Byte>>)
    requires AreLines(s, lines)
    ensures lines == StreamLines(s)
  {
    if s == Joined(lines + [[]]) {
      JoinedPieces(lines + [[]]);
      assert (lines + [[]])[..|lines|] == lines;
    } else {
      JoinedPieces(lines);
    }
  }

  // ----- lines out of order

  datatype Source = Runner | Backboard | Other

  datatype Line = Line(source: Source, stamp: int)

  datatype Hit = Hit(at: nat, ahead: int)

  /** A line of the daemon's that a runner line, stamped later, arrived before. */
  ghost predicate Overtaken(lines: seq<Line>, at: nat) {
    at < |lines| && lines[at].source == Backboard && exists j :: 0 <= j < at && Ahead(lines, j, at)
  }

  predicate Ahead(lines: seq<Line>, j: nat, at: nat)
    requires j < |lines| && at < |lines|
  {
    lines[j].source == Runner && lines[j].stamp > lines[at].stamp
  }

  /** How far ahead: the largest gap to such a line. */
  ghost predicate IsGap(lines: seq<Line>, h: Hit) {
    && h.at < |lines|
    && (exists j :: 0 <= j < h.at && Ahead(lines, j, h.at) && h.ahead == lines[j].stamp - lines[h.at].stamp)
    && (forall j :: 0 <= j < h.at && Ahead(lines, j, h.at) ==> lines[j].stamp - lines[h.at].stamp <= h.ahead)
  }

  ghost predicate Reported(hits: seq<Hit>, at: nat) {
    exists h :: h in hits && h.at == at
  }

  lemma OneMoreHit(hits: seq<Hit>, h: Hit)
    ensures forall at: nat :: Reported(hits + [h], at) <==> Reported(hits, at) || h.at == at
  {
    forall at: nat
      ensures Reported(hits + [h], at) <==> Reported(hits, at) || h.at == at
    {
      assert h in hits + [h];
      if g :| g in hits && g.at == at {
        assert g in hits + [h];
      }
    }
  }

  /** `inversions`: one pass with a running maximum reports exactly the overtaken lines, each once, in order of
      arrival, with its largest gap. */
  method Inversions(lines: seq<Line>) returns (hits: seq<Hit>)
    ensures forall at: nat :: Overtaken(lines, at) <==> Reported(hits, at)
    ensures forall h :: h in hits ==> Overtaken(lines, h.at) && IsGap(lines, h)
    ensures forall a, b :: 0 <= a < b < |hits| ==> hits[a].at < hits[b].at
  {
    hits := [];
    var some, latest := false, 0;
    ghost var top: nat := 0;
    for k := 0 to |lines|
      invariant some ==> top < k && lines[top].source == Runner && lines[top].stamp == latest
      invariant forall j :: 0 <= j < k && lines[j].source == Runner ==> some && lines[j].stamp <= latest
      invariant forall at: nat :: at < k ==> (Overtaken(lines, at) <==> Reported(hits, at))
      invariant forall h :: h in hits ==> h.at < k && Overtaken(lines, h.at) && IsGap(lines, h)
      invariant forall a, b :: 0 <= a < b < |hits| ==> hits[a].at < hits[b].at
    {
      var line := lines[k];
      if line.source == Runner {
        if !some || line.stamp > latest {
          some, latest, top := true, line.stamp, k;
        }
      } else if line.source == Backboard && some && line.stamp < latest {
        OneMoreHit(hits, Hit(k, latest - line.stamp));
        hits := hits + [Hit(k, latest - line.stamp)];
        assert Ahead(lines, top, k);
      }
    }
  }
}
