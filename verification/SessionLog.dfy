/** The sessions of a recorded stream: the recorder's loop, which may be stopped or killed anywhere
    (`scripts/synthesis_stream_record.py`), and the reader that tells from the file what was lost (`load` of
    `scripts/synthesis_stream_report.py`). */
module SessionLog {

  datatype Option<+T> = None | Some(value: T)

  datatype Kind = Start | End | Stopped | GaveUp

  /** A line of the file as the reader finds it: text that is no JSON, JSON that is no object, a `meta` record, or an
      event, which may lack what the reader needs. */
  datatype Line = NoJson | NoObject | Meta(kind: Kind, skipped: nat) | Event(id: int, readable: bool)

  // ----- what the reader counts

  function Count(lines: seq<Line>, p: Line -> bool): nat {
    if lines == [] then 0 else Count(lines[..|lines| - 1], p) + if p(lines[|lines| - 1]) then 1 else 0
  }

  function Skipped(lines: seq<Line>): nat {
    if lines == [] then 0
    else
      var l := lines[|lines| - 1];
      Skipped(lines[..|lines| - 1]) + if l.Meta? && l.kind.End? then l.skipped else 0
  }

  function Readable(lines: seq<Line>): seq<Line> {
    if lines == [] then []
    else
      var l := lines[|lines| - 1];
      Readable(lines[..|lines| - 1]) + if l.Event? && l.readable then [l] else []
  }

  predicate Is(kind: Kind, l: Line) {
    l.Meta? && l.kind == kind
  }

  predicate IsStart(l: Line) {
    Is(Start, l)
  }

  predicate IsEnd(l: Line) {
    Is(End, l)
  }

  predicate IsQuit(l: Line) {
    Is(GaveUp, l)
  }

  predicate IsBad(l: Line) {
    l.NoJson? || l.NoObject? || (l.Event? && !l.readable)
  }

  /** The first of the records that open or close a session. */
  function NextBoundary(lines: seq<Line>): Option<Kind> {
    if lines == [] then None
    else if lines[0].Meta? && !lines[0].kind.GaveUp? then Some(lines[0].kind) else NextBoundary(lines[1..])
  }

  predicate ClosesFirst(lines: seq<Line>) {
    NextBoundary(lines) == Some(End) || NextBoundary(lines) == Some(Stopped)
  }

  /** The sessions that are neither ended nor stopped before the next one starts. */
  function Unterminated(lines: seq<Line>): nat {
    if lines == [] then 0
    else (if Is(Start, lines[0]) && !ClosesFirst(lines[1..]) then 1 else 0) + Unterminated(lines[1..])
  }

  function One(b: bool): nat {
    if b then 1 else 0
  }

  class Recording {
    var events: seq<Line>
    var badLines: nat
    var sessions: nat
    var streamEnds: nat
    var unterminated: nat
    var recorderSkipped: nat
    var gaveUp: bool

    constructor ()
      ensures events == [] && badLines == sessions == streamEnds == unterminated == recorderSkipped == 0 && !gaveUp
    {
      events, badLines, sessions, streamEnds := [], 0, 0, 0;
      unterminated, recorderSkipped, gaveUp := 0, 0, false;
    }

    /** One line, with the flag that a session is open. */
    method Take(line: Line, isLast: bool, wasOpen: bool) returns (openSession: bool)
      modifies this
      ensures events == old(events) + Readable([line])
      ensures badLines == old(badLines) + One(IsBad(line) && !(line.NoJson? && isLast))
      ensures sessions == old(sessions) + One(IsStart(line)) && streamEnds == old(streamEnds) + One(IsEnd(line))
      ensures unterminated == old(unterminated) + One(IsStart(line) && wasOpen)
      ensures recorderSkipped == old(recorderSkipped) + Skipped([line])
      ensures gaveUp == (old(gaveUp) || IsQuit(line))
      ensures openSession == (IsStart(line) || (wasOpen && NextBoundary([line]).None?))
    {
      openSession := wasOpen;
      match line
      case NoJson =>
        if !isLast {
          badLines := badLines + 1;
        }
      case NoObject => badLines := badLines + 1;
      case Meta(kind, skipped) =>
        match kind {
          case Start =>
            unterminated := unterminated + One(wasOpen);
            sessions := sessions + 1;
            openSession := true;
          case End =>
            streamEnds := streamEnds + 1;
            recorderSkipped := recorderSkipped + skipped;
            openSession := false;
          case Stopped => openSession := false;
          case GaveUp => gaveUp := true;
        }
      case Event(_, readable) =>
        if readable {
          events := events + [line];
        } else {
          badLines := badLines + 1;
        }
    }

    /** The same, after the lines before. */
    method TakeNext(line: Line, isLast: bool, wasOpen: bool, ghost before: seq<Line>) returns (openSession: bool)
      requires Counts(before, false)
      modifies this
      ensures Counts(before + [line], isLast && line.NoJson?)
      ensures unterminated == old(unterminated) + One(IsStart(line) && wasOpen)
      ensures openSession == (IsStart(line) || (wasOpen && NextBoundary([line]).None?))
    {
      openSession := Take(line, isLast, wasOpen);
      LineSnoc(before, line);
    }

    /** The counters are those of `lines`, of which the last may be cut short. */
    ghost predicate Counts(lines: seq<Line>, torn: bool)
      reads this
    {
      && events == Readable(lines)
      && badLines + One(torn) == Count(lines, IsBad)
      && sessions == Count(lines, IsStart) && streamEnds == Count(lines, IsEnd)
      && recorderSkipped == Skipped(lines)
      && (gaveUp <==> Count(lines, IsQuit) > 0)
    }
  }

  lemma CountSnoc(lines: seq<Line>, l: Line, p: Line -> bool)
    ensures Count(lines + [l], p) == Count(lines, p) + One(p(l))
  {
    assert (lines + [l])[..|lines|] == lines;
  }

  lemma LineSnoc(lines: seq<Line>, l: Line)
    ensures Readable(lines + [l]) == Readable(lines) + Readable([l])
    ensures Skipped(lines + [l]) == Skipped(lines) + Skipped([l])
    ensures Count(lines + [l], IsBad) == Count(lines, IsBad) + One(IsBad(l))
    ensures Count(lines + [l], IsStart) == Count(lines, IsStart) + One(IsStart(l))
    ensures Count(lines + [l], IsEnd) == Count(lines, IsEnd) + One(IsEnd(l))
    ensures Count(lines + [l], IsQuit) == Count(lines, IsQuit) + One(IsQuit(l))
  {
    assert (lines + [l])[..|lines|] == lines;
    CountSnoc(lines, l, IsBad);
    CountSnoc(lines, l, IsStart);
    CountSnoc(lines, l, IsEnd);
    CountSnoc(lines, l, IsQuit);
  }

  /** `load`. A last line cut short does not count as bad. */
  method Load(lines: seq<Line>) returns (rec: Recording)
    ensures fresh(rec)
    ensures rec.Counts(lines, lines != [] && lines[|lines| - 1].NoJson?)
    ensures rec.unterminated == Unterminated(lines)
  {
    rec := new Recording();
    var openSession := false;
    for i := 0 to |lines|
      invariant fresh(rec) && rec.Counts(lines[..i], 0 < i == |lines| && lines[i - 1].NoJson?)
      invariant rec.unterminated + One(openSession && !ClosesFirst(lines[i..])) + Unterminated(lines[i..]) == Unterminated(lines)
    {
      assert lines[..i + 1] == lines[..i] + [lines[i]];
      UnterminatedCons(lines, i, openSession);
      openSession := rec.TakeNext(lines[i], i == |lines| - 1, openSession, lines[..i]);
    }
    assert lines[..|lines|] == lines;
    rec.unterminated := rec.unterminated + One(openSession);
  }

  lemma UnterminatedCons(lines: seq<Line>, i: nat, wasOpen: bool)
    requires i < |lines|
    ensures var openSession := IsStart(lines[i]) || (wasOpen && NextBoundary([lines[i]]).None?);
      One(wasOpen && !ClosesFirst(lines[i..])) + Unterminated(lines[i..])
      == One(IsStart(lines[i]) && wasOpen) + One(openSession && !ClosesFirst(lines[i + 1..])) + Unterminated(lines[i + 1..])
  {
    assert lines[i..][1..] == lines[i + 1..] && [lines[i]][1..] == [];
  }

  /** Every line is an event kept, a bad line, or a record of a session. */
  lemma {:induction false} LinesAddUp(lines: seq<Line>)
    ensures |lines| == |Readable(lines)| + Count(lines, IsBad) + Count(lines, (l: Line) => l.Meta?)
  {
    if lines != [] {
      LinesAddUp(lines[..|lines| - 1]);
    }
  }

  // ----- the recorder

  /** A line of the stream: blank or the preamble, an event, or something else. */
  datatype Raw = Ignored | Recorded(id: int, readable: bool) | Unreadable

  /** One stream session: what came, and when it began and ended. */
  datatype Session = Session(raw: seq<Raw>, began: real, ended: real)

  const HEALTHY_SESSION := 30.0
  const GIVE_UP_AFTER := 600.0

  function Events(raw: seq<Raw>): (r: seq<Line>)
    ensures forall l :: l in r ==> l.Event?
  {
    if raw == [] then []
    else
      var last := raw[|raw| - 1];
      Events(raw[..|raw| - 1]) + if last.Recorded? then [Event(last.id, last.readable)] else []
  }

  function SkippedIn(raw: seq<Raw>): nat {
    if raw == [] then 0 else SkippedIn(raw[..|raw| - 1]) + One(raw[|raw| - 1].Unreadable?)
  }

  function SessionLines(s: Session): seq<Line>
  {
    [Meta(Start, 0)] + Events(s.raw) + [Meta(End, SkippedIn(s.raw))]
  }

  predicate Productive(s: Session)
  {
    Events(s.raw) != [] || s.ended - s.began >= HEALTHY_SESSION
  }

  /** When the last productive of the first `n` sessions ended. */
  function LastProductive(sessions: seq<Session>, n: nat, started: real): real
    requires n <= |sessions|
  {
    if n == 0 then started
    else if Productive(sessions[n - 1]) then sessions[n - 1].ended else LastProductive(sessions, n - 1, started)
  }

  predicate GivesUp(sessions: seq<Session>, n: nat, started: real)
    requires n < |sessions|
  {
    !Productive(sessions[n]) && sessions[n].ended - LastProductive(sessions, n, started) >= GIVE_UP_AFTER
  }

  predicate GoesOn(sessions: seq<Session>, n: nat, started: real)
    requires n <= |sessions|
  {
    forall k :: 0 <= k < n ==> !GivesUp(sessions, k, started)
  }

  function Log(sessions: seq<Session>): seq<Line>
  {
    if sessions == [] then []
    else
      Log(sessions[..|sessions| - 1]) + SessionLines(sessions[|sessions| - 1])
  }

  lemma LogSnoc(sessions: seq<Session>, s: Session)
        ensures Log(sessions + [s]) == Log(sessions) + SessionLines(s)
  {
    assert (sessions + [s])[..|sessions|] == sessions;
  }

  function SkippedInAll(sessions: seq<Session>): nat {
    if sessions == [] then 0 else SkippedInAll(sessions[..|sessions| - 1]) + SkippedIn(sessions[|sessions| - 1].raw)
  }

  lemma {:induction false} SkippedConcat(a: seq<Line>, b: seq<Line>)
    ensures Skipped(a + b) == Skipped(a) + Skipped(b)
  {
    if b == [] {
      assert a + b == a;
    } else {
      SkippedConcat(a, b[..|b| - 1]);
      assert (a + b)[|a + b| - 1] == b[|b| - 1];
      assert (a + b)[..|a + b| - 1] == a + b[..|b| - 1];
    }
  }

  lemma {:induction false} NoneSkipped(lines: seq<Line>)
    requires forall l :: l in lines ==> l.Event?
    ensures Skipped(lines) == 0
  {
    if lines != [] {
      NoneSkipped(lines[..|lines| - 1]);
      assert lines[|lines| - 1] in lines;
    }
  }

  /** The reader adds up what the recorder skipped, over all the sessions that ended. */
  lemma {:induction false} SkippedAddUp(sessions: seq<Session>)
    ensures Skipped(Log(sessions)) == SkippedInAll(sessions)
  {
    if sessions != [] {
      var s, before := sessions[|sessions| - 1], Log(sessions[..|sessions| - 1]);
      var start, end := [Meta(Start, 0)], [Meta(End, SkippedIn(s.raw))];
      SkippedAddUp(sessions[..|sessions| - 1]);
      NoneSkipped(Events(s.raw));
      SkippedConcat(start, Events(s.raw));
      SkippedConcat(start + Events(s.raw), end);
      SkippedConcat(before, SessionLines(s));
      assert start[..0] == [] && end[..0] == [];
    }
  }

  class Recorder {
    var out: seq<Line>

    /** `record`: one record for each event, and what was written and skipped. */
    method Record(raw: seq<Raw>) returns (written: nat, skipped: nat)
      modifies this
      ensures out == old(out) + Events(raw) && written == |Events(raw)| && skipped == SkippedIn(raw)
    {
      written, skipped := 0, 0;
      for i := 0 to |raw|
        invariant out == old(out) + Events(raw[..i]) && written == |Events(raw[..i])| && skipped == SkippedIn(raw[..i])
      {
        assert raw[..i + 1][..i] == raw[..i];
        match raw[i]
        case Ignored =>
        case Unreadable => skipped := skipped + 1;
        case Recorded(id, readable) =>
          out := out + [Event(id, readable)];
          written := written + 1;
      }
      assert raw[..|raw|] == raw;
    }

    /** One session between its two records. */
    method StreamOnce(s: Session) returns (written: nat)
      modifies this
      ensures out == old(out) + SessionLines(s) && written == |Events(s.raw)|
    {
      out := out + [Meta(Start, 0)];
      var skipped;
      written, skipped := Record(s.raw);
      out := out + [Meta(End, skipped)];
    }

    /** The `n`-th session, and whether it is the one to give up at. */
    method OneSession(sessions: seq<Session>, n: nat, started: real, lastProductive: real) returns (last: real, quits: bool)
      requires n < |sessions| && lastProductive == LastProductive(sessions, n, started)
      modifies this
      ensures out == old(out) + SessionLines(sessions[n])
      ensures quits <==> GivesUp(sessions, n, started)
      ensures !quits ==> last == LastProductive(sessions, n + 1, started)
    {
      var s := sessions[n];
      var written := StreamOnce(s);
      last, quits := lastProductive, false;
      if written > 0 || s.ended - s.began >= HEALTHY_SESSION {
        last := s.ended;
      } else if s.ended - lastProductive >= GIVE_UP_AFTER {
        quits := true;
      }
    }

    /** The loop of `main`, over the sessions there would be: it gives up at the first that was unproductive too long
        after the last productive one. */
    method RecordSessions(sessions: seq<Session>, started: real) returns (ran: nat, gaveUp: bool)
      modifies this
      ensures ran <= |sessions| && out == old(out) + Log(sessions[..ran]) + (if gaveUp then [Meta(GaveUp, 0)] else [])
      ensures if gaveUp then ran > 0 && GivesUp(sessions, ran - 1, started) && GoesOn(sessions, ran - 1, started)
              else ran == |sessions| && GoesOn(sessions, ran, started)
    {
      var lastProductive := started;
      ran, gaveUp := 0, false;
      while ran < |sessions|
        invariant ran <= |sessions| && out == old(out) + Log(sessions[..ran])
        invariant lastProductive == LastProductive(sessions, ran, started)
        invariant GoesOn(sessions, ran, started)
      {
        LogGrows(old(out), sessions, ran);
        lastProductive, gaveUp := OneSession(sessions, ran, started, lastProductive);
        ran := ran + 1;
        if gaveUp {
          out := out + [Meta(GaveUp, 0)];
          return;
        }
      }
    }
  }

  lemma LogGrows(before: seq<Line>, sessions: seq<Session>, n: nat)
    requires n < |sessions|
    ensures before + Log(sessions[..n]) + SessionLines(sessions[n]) == before + Log(sessions[..n + 1])
  {
    assert sessions[..n + 1] == sessions[..n] + [sessions[n]];
    LogSnoc(sessions[..n], sessions[n]);
  }

  // ----- runs, stopped and killed

  /** How a run comes to an end: it gives up, it gets one `SIGTERM` or more, or it is killed outright. */
  datatype Ending = Quits | Terminated(signals: nat) | Killed

  /** A run that got as far as `written` lines. */
  datatype Run = Run(sessions: seq<Session>, gaveUp: bool, written: nat, ending: Ending)

  function Whole(r: Run): seq<Line>
  {
    Log(r.sessions) + if r.gaveUp then [Meta(GaveUp, 0)] else []
  }

  predicate RunOk(r: Run) {
    && r.written <= |Whole(r)| && (r.gaveUp ==> r.sessions != [])
    && (r.ending.Quits? ==> r.gaveUp && r.written == |Whole(r)|)
    && (r.ending.Terminated? ==> r.ending.signals > 0)
  }

  function Stops(n: nat): seq<Line> {
    if n == 0 then [] else [Meta(Stopped, 0)] + Stops(n - 1)
  }

  function Written(r: Run): seq<Line>
    requires RunOk(r)
  {
    Whole(r)[..r.written]
  }

  function Output(r: Run): seq<Line>
    requires RunOk(r)
  {
    Written(r) + if r.ending.Terminated? then Stops(r.ending.signals) else []
  }

  /** The file, to which every run appends. */
  function File(runs: seq<Run>): seq<Line>
    requires forall r :: r in runs ==> RunOk(r)
  {
    if runs == [] then [] else Output(runs[0]) + File(runs[1..])
  }

  /** The last boundary opens a session. */
  predicate EndsOpen(lines: seq<Line>) {
    lines != [] && if NextBoundary(lines[1..]).Some? then EndsOpen(lines[1..]) else Is(Start, lines[0])
  }

  lemma {:induction false} BoundaryConcat(a: seq<Line>, b: seq<Line>)
    ensures NextBoundary(a + b) == if NextBoundary(a).Some? then NextBoundary(a) else NextBoundary(b)
  {
    if a == [] {
      assert a + b == b;
    } else {
      BoundaryConcat(a[1..], b);
      assert (a + b)[1..] == a[1..] + b;
    }
  }

  lemma {:induction false} OpenConcat(a: seq<Line>, b: seq<Line>)
    ensures EndsOpen(a + b) <==> if NextBoundary(b).Some? then EndsOpen(b) else EndsOpen(a)
  {
    if a == [] {
      assert a + b == b;
    } else {
      BoundaryConcat(a[1..], b);
      OpenConcat(a[1..], b);
      assert (a + b)[1..] == a[1..] + b;
    }
  }

  /** A session left open is closed by what comes next, if that closes before it opens. */
  lemma {:induction false} UnterminatedConcat(a: seq<Line>, b: seq<Line>)
    ensures Unterminated(a + b) == Unterminated(a) + Unterminated(b) - One(EndsOpen(a) && ClosesFirst(b))
  {
    if a == [] {
      assert a + b == b;
    } else {
      BoundaryConcat(a[1..], b);
      UnterminatedConcat(a[1..], b);
      assert (a + b)[1..] == a[1..] + b;
    }
  }

  lemma {:induction false} EventsHaveNoBoundary(lines: seq<Line>)
    requires forall l :: l in lines ==> l.Event?
    ensures NextBoundary(lines) == None && Unterminated(lines) == 0
  {
    if lines != [] {
      assert lines[0] in lines;
      EventsHaveNoBoundary(lines[1..]);
    }
  }

  /** At most the last session is open, and that is what the reader sees. */
  predicate Tidy(lines: seq<Line>) {
    Unterminated(lines) == One(EndsOpen(lines))
  }

  /** And every start but that of an open session has its `end`. */
  predicate Paired(lines: seq<Line>) {
    Tidy(lines) && Count(lines, IsStart) == Count(lines, IsEnd) + One(EndsOpen(lines))
  }

  lemma {:induction false} CountConcat(a: seq<Line>, b: seq<Line>, p: Line -> bool)
    ensures Count(a + b, p) == Count(a, p) + Count(b, p)
  {
    if b == [] {
      assert a + b == a;
    } else {
      CountConcat(a, b[..|b| - 1], p);
      assert a + b == (a + b[..|b| - 1]) + [b[|b| - 1]];
      CountSnoc(a + b[..|b| - 1], b[|b| - 1], p);
    }
  }

  lemma {:induction false} CountNone(lines: seq<Line>, p: Line -> bool)
    requires forall l :: l in lines ==> !p(l)
    ensures Count(lines, p) == 0
  {
    if lines != [] {
      CountNone(lines[..|lines| - 1], p);
    }
  }

  lemma SessionStarts(s: Session, k: nat)
    requires k <= |SessionLines(s)|
    ensures Count(SessionLines(s)[..k], IsStart) == One(k > 0)
    ensures Count(SessionLines(s)[..k], IsEnd) == One(k == |SessionLines(s)|)
  {
    var start, events, end := [Meta(Start, 0)], Events(s.raw), [Meta(End, SkippedIn(s.raw))];
    assert start[..0] == [] && end[..0] == [];
    if k > 0 {
      var some := if k <= |events| + 1 then events[..k - 1] else events;
      assert forall l :: l in some ==> l in events;
      CountNone(some, IsStart);
      CountNone(some, IsEnd);
      CountConcat(start, some, IsStart);
      CountConcat(start, some, IsEnd);
      if k <= |events| + 1 {
        assert SessionLines(s)[..k] == start + some;
      } else {
        assert SessionLines(s)[..k] == start + some + end;
        CountConcat(start + some, end, IsStart);
        CountConcat(start + some, end, IsEnd);
      }
    }
  }

  lemma SessionIsTidy(s: Session, k: nat)
    requires k <= |SessionLines(s)|
    ensures Paired(SessionLines(s)[..k]) && !EndsOpen(SessionLines(s))
    ensures k > 0 ==> NextBoundary(SessionLines(s)[..k]) == Some(Start)
  {
    var all, events := SessionLines(s), Events(s.raw);
    EventsHaveNoBoundary(events);
    var end := [Meta(End, SkippedIn(s.raw))];
    assert end[1..] == [];
    BoundaryConcat(events, end);
    OpenConcat(events, end);
    UnterminatedConcat(events, end);
    assert all[1..] == events + end;
    SessionStarts(s, k);
    if 0 < k <= |events| + 1 {
      var some := events[..k - 1];
      EventsHaveNoBoundary(some);
      assert all[..k][1..] == some;
    } else if k > 0 {
      assert all[..k] == all;
    }
  }

  lemma {:induction false} LogIsTidy(sessions: seq<Session>, k: nat)
    requires k <= |Log(sessions)|
    ensures Paired(Log(sessions)[..k]) && Paired(Log(sessions)) && !EndsOpen(Log(sessions))
    decreases |sessions|
  {
    if sessions != [] {
      var s, before := sessions[|sessions| - 1], Log(sessions[..|sessions| - 1]);
      LogIsTidy(sessions[..|sessions| - 1], if k <= |before| then k else 0);
      SessionAppended(before, s, |SessionLines(s)|);
      assert SessionLines(s)[..|SessionLines(s)|] == SessionLines(s);
      if k <= |before| {
        assert Log(sessions)[..k] == before[..k];
      } else {
        SessionAppended(before, s, k - |before|);
        assert Log(sessions)[..k] == before + SessionLines(s)[..k - |before|];
      }
    }
  }

  lemma SessionAppended(before: seq<Line>, s: Session, k: nat)
    requires k <= |SessionLines(s)| && Paired(before) && !EndsOpen(before)
    ensures Paired(before + SessionLines(s)[..k]) && !EndsOpen(before + SessionLines(s))
  {
    SessionIsTidy(s, k);
    SessionIsTidy(s, |SessionLines(s)|);
    assert SessionLines(s)[..|SessionLines(s)|] == SessionLines(s);
    UnterminatedConcat(before, SessionLines(s)[..k]);
    OpenConcat(before, SessionLines(s)[..k]);
    OpenConcat(before, SessionLines(s));
    CountConcat(before, SessionLines(s)[..k], IsStart);
    CountConcat(before, SessionLines(s)[..k], IsEnd);
    if k == 0 {
      assert before + SessionLines(s)[..k] == before;
    }
  }

  lemma StopsClose(n: nat)
    requires n > 0
    ensures NextBoundary(Stops(n)) == Some(Stopped) && Unterminated(Stops(n)) == 0 && !EndsOpen(Stops(n))
  {
    assert Stops(n)[1..] == Stops(n - 1);
    if n > 1 {
      StopsClose(n - 1);
    }
  }

  lemma WholeIsTidy(r: Run)
    requires RunOk(r)
    ensures Paired(Written(r)) && (r.ending.Quits? ==> !EndsOpen(Written(r)))
  {
    var log := Log(r.sessions);
    if r.written <= |log| {
      LogIsTidy(r.sessions, r.written);
      assert Written(r) == log[..r.written];
    } else {
      LogIsTidy(r.sessions, |log|);
      var quit := [Meta(GaveUp, 0)];
      assert quit[1..] == [];
      assert Written(r) == log + quit;
      UnterminatedConcat(log, quit);
      OpenConcat(log, quit);
      CountSnoc(log, quit[0], IsStart);
      CountSnoc(log, quit[0], IsEnd);
    }
  }

  /** A run leaves a session open only when it is killed in one. */
  lemma OutputIsTidy(r: Run)
    requires RunOk(r)
    ensures Tidy(Output(r)) && (!r.ending.Killed? ==> !EndsOpen(Output(r)))
  {
    WholeIsTidy(r);
    var written := Written(r);
    if r.ending.Terminated? {
      StopsClose(r.ending.signals);
      UnterminatedConcat(written, Stops(r.ending.signals));
      OpenConcat(written, Stops(r.ending.signals));
    } else {
      assert Output(r) == written;
    }
  }

  // ----- what the reader does not see

  /** A run that left nothing in the file. */
  predicate Silent(r: Run) {
    r.written == 0 && !r.ending.Terminated?
  }

  /** Of the runs after it, the first that left anything was stopped before it wrote a `start`. */
  predicate HiddenBy(later: seq<Run>) {
    later != [] && if Silent(later[0]) then HiddenBy(later[1..]) else later[0].written == 0
  }

  /** The runs killed in a session and not hidden by a later one. */
  function KilledInSession(runs: seq<Run>): nat
    requires forall r :: r in runs ==> RunOk(r)
  {
    if runs == [] then 0
    else
      One(runs[0].ending.Killed? && EndsOpen(Written(runs[0])) && !HiddenBy(runs[1..])) + KilledInSession(runs[1..])
  }

  lemma {:induction false} LogStarts(sessions: seq<Session>)
    requires sessions != []
    ensures Log(sessions) != [] && Log(sessions)[0] == Meta(Start, 0)
  {
    if |sessions| > 1 {
      LogStarts(sessions[..|sessions| - 1]);
    }
  }

  /** A run's first line is a `start`, if it got as far. */
  lemma RunStarts(r: Run)
    requires RunOk(r)
    ensures r.written > 0 ==> NextBoundary(Output(r)) == Some(Start)
    ensures r.written == 0 && r.ending.Terminated? ==> NextBoundary(Output(r)) == Some(Stopped)
    ensures Silent(r) ==> Output(r) == []
  {
    if r.written > 0 {
      assert r.sessions != [];
      LogStarts(r.sessions);
      assert Output(r)[0] == Whole(r)[0] == Log(r.sessions)[0];
    } else if r.ending.Terminated? {
      StopsClose(r.ending.signals);
      assert Output(r) == Stops(r.ending.signals);
    }
  }

  /** The file closes a session before it starts one exactly when the runs say so. */
  lemma {:induction false} ClosesFirstIff(runs: seq<Run>)
    requires forall r :: r in runs ==> RunOk(r)
    ensures ClosesFirst(File(runs)) <==> HiddenBy(runs)
  {
    if runs != [] {
      ClosesFirstIff(runs[1..]);
      RunStarts(runs[0]);
      BoundaryConcat(Output(runs[0]), File(runs[1..]));
    }
  }

  /** Over all files: the sessions reported unterminated are exactly those runs were killed in, but for the hidden. */
  lemma {:induction false} UnterminatedIs(runs: seq<Run>)
    requires forall r :: r in runs ==> RunOk(r)
    ensures Unterminated(File(runs)) == KilledInSession(runs)
  {
    if runs != [] {
      UnterminatedIs(runs[1..]);
      OutputIsTidy(runs[0]);
      UnterminatedConcat(Output(runs[0]), File(runs[1..]));
      ClosesFirstIff(runs[1..]);
      KilledIsWritten(runs[0]);
    }
  }

  lemma KilledIsWritten(r: Run)
    requires RunOk(r)
    ensures r.ending.Killed? ==> Output(r) == Written(r)
  {
  }

  /** Where no run was killed outright, no session is reported unterminated. */
  lemma {:induction false} NoneUnterminated(runs: seq<Run>)
    requires forall r :: r in runs ==> RunOk(r) && !r.ending.Killed?
    ensures Unterminated(File(runs)) == 0
  {
    if runs != [] {
      NoneUnterminated(runs[1..]);
      OutputIsTidy(runs[0]);
      UnterminatedConcat(Output(runs[0]), File(runs[1..]));
    }
  }

  /** The runs stopped or killed in a session. */
  function CutShort(runs: seq<Run>): nat
    requires forall r :: r in runs ==> RunOk(r)
  {
    if runs == [] then 0
    else One(EndsOpen(Written(runs[0]))) + CutShort(runs[1..])
  }

  lemma {:induction false} StopsCount(n: nat)
    ensures Count(Stops(n), IsStart) == 0 && Count(Stops(n), IsEnd) == 0
  {
    if n > 0 {
      StopsCount(n - 1);
      CountConcat([Meta(Stopped, 0)], Stops(n - 1), IsStart);
      CountConcat([Meta(Stopped, 0)], Stops(n - 1), IsEnd);
      assert [Meta(Stopped, 0)][..0] == [];
    }
  }

  lemma OutputCounts(r: Run)
    requires RunOk(r)
    ensures Count(Output(r), IsStart) == Count(Output(r), IsEnd) + One(EndsOpen(Written(r)))
  {
    var written := Written(r);
    WholeIsTidy(r);
    if r.ending.Terminated? {
      StopsCount(r.ending.signals);
      CountConcat(written, Stops(r.ending.signals), IsStart);
      CountConcat(written, Stops(r.ending.signals), IsEnd);
    } else {
      assert Output(r) == written;
    }
  }

  /** Every session is counted once as started, and once as ended unless its run was cut short in it. */
  lemma {:induction false} SessionsAddUp(runs: seq<Run>)
    requires forall r :: r in runs ==> RunOk(r)
    ensures Count(File(runs), IsStart) == Count(File(runs), IsEnd) + CutShort(runs)
  {
    if runs != [] {
      SessionsAddUp(runs[1..]);
      OutputCounts(runs[0]);
      CountConcat(Output(runs[0]), File(runs[1..]), IsStart);
      CountConcat(Output(runs[0]), File(runs[1..]), IsEnd);
    }
  }

  /** A run that is stopped before its first `start` hides that the one before was killed. */
  lemma StrayStopHides()
    ensures exists killed, stopped ::
      && RunOk(killed) && RunOk(stopped) && killed.ending.Killed?
      && Unterminated(File([killed])) == 1 && Unterminated(File([killed, stopped])) == 0
  {
    var s := Session([], 0.0, 0.0);
    var killed := Run([s], false, 1, Killed);
    var stopped := Run([], false, 0, Terminated(1));
    assert [s][..0] == [];
    assert Log([s]) == SessionLines(s);
    assert Output(killed) == [Meta(Start, 0)];
    assert Stops(1) == [Meta(Stopped, 0)] + Stops(0) == [Meta(Stopped, 0)];
    assert Output(stopped) == [Meta(Stopped, 0)];
    assert [killed][1..] == [] && [stopped][1..] == [] && [killed, stopped][1..] == [stopped];
    assert File([stopped]) == [Meta(Stopped, 0)] + [] == [Meta(Stopped, 0)];
    assert File([killed]) == [Meta(Start, 0)] + [] == [Meta(Start, 0)];
    UnterminatedConcat([Meta(Start, 0)], [Meta(Stopped, 0)]);
    assert [Meta(Start, 0)][1..] == [] && [Meta(Stopped, 0)][1..] == [];
  }

  // ----- a record cut short by a kill

  /** The file when the last of the earlier runs was killed within a record, of which a part was written: the next run's
      first line runs on behind that part, and both together are no JSON. */
  function TornFile(earlier: seq<Run>, later: seq<Run>): seq<Line>
    requires forall r :: r in earlier + later ==> RunOk(r)
    requires later != [] && later[0].written > 0
  {
    assert forall r :: r in earlier || r in later ==> r in earlier + later;
    StartsFile(later);
    File(earlier) + ([NoJson] + File(later)[1..])
  }

  lemma StartsFile(runs: seq<Run>)
    requires (forall r :: r in runs ==> RunOk(r)) && runs != [] && runs[0].written > 0
    ensures File(runs) != [] && File(runs)[0] == Meta(Start, 0)
  {
    var r := runs[0];
    assert r in runs && r.sessions != [];
    LogStarts(r.sessions);
    assert Output(r)[0] == Whole(r)[0] == Log(r.sessions)[0];
  }

  lemma {:induction false} FileConcat(earlier: seq<Run>, later: seq<Run>)
    requires forall r :: r in earlier + later ==> RunOk(r)
    ensures forall r :: r in earlier || r in later ==> RunOk(r)
    ensures File(earlier + later) == File(earlier) + File(later)
  {
    assert forall r :: r in earlier || r in later ==> r in earlier + later;
    if earlier == [] {
      assert earlier + later == later;
    } else {
      assert (earlier + later)[1..] == earlier[1..] + later;
      FileConcat(earlier[1..], later);
    }
  }

  /** Of two files, the reader finds one start fewer in the first, one bad line more, and perhaps one unterminated
      session fewer. */
  predicate LosesStart(torn: seq<Line>, all: seq<Line>, one: bool) {
    && Count(torn, IsStart) + 1 == Count(all, IsStart) && Count(torn, IsEnd) == Count(all, IsEnd)
    && Count(torn, IsBad) == Count(all, IsBad) + 1
    && Unterminated(torn) + One(one) == Unterminated(all)
  }

  /** The reader of such a file misses the start of the next run's first session, and one unterminated session: the one
      the kill left open, or else, if nothing closes it, the one that was to start. */
  lemma TornRecordHides(earlier: seq<Run>, later: seq<Run>)
    requires forall r :: r in earlier + later ==> RunOk(r)
    requires later != [] && later[0].written > 0
    ensures forall r :: r in earlier || r in later ==> RunOk(r)
    ensures File(later) != []
    ensures LosesStart(TornFile(earlier, later), File(earlier + later),
                       EndsOpen(File(earlier)) || !ClosesFirst(File(later)[1..]))
  {
    FileConcat(earlier, later);
    StartsFile(later);
    var a, b := File(earlier), File(later)[1..];
    HeadTail(File(later));
    StartLost(a, b);
  }

  lemma HeadTail(lines: seq<Line>)
    requires lines != []
    ensures lines == [lines[0]] + lines[1..]
  {
  }

  lemma StartLost(a: seq<Line>, b: seq<Line>)
    ensures LosesStart(a + ([NoJson] + b), a + ([Meta(Start, 0)] + b), EndsOpen(a) || !ClosesFirst(b))
  {
    CountsLost(a, b);
    SessionsLost(a, b);
  }

  lemma SessionsLost(a: seq<Line>, b: seq<Line>)
    ensures Unterminated(a + ([NoJson] + b)) + One(EndsOpen(a) || !ClosesFirst(b)) == Unterminated(a + ([Meta(Start, 0)] + b))
  {
    UnterminatedConcat(a, [NoJson] + b);
    UnterminatedConcat(a, [Meta(Start, 0)] + b);
    assert ([NoJson] + b)[1..] == b && ([Meta(Start, 0)] + b)[1..] == b;
  }

  lemma CountsLost(a: seq<Line>, b: seq<Line>)
    ensures var torn, all := a + ([NoJson] + b), a + ([Meta(Start, 0)] + b);
      && Count(torn, IsStart) + 1 == Count(all, IsStart) && Count(torn, IsEnd) == Count(all, IsEnd)
      && Count(torn, IsBad) == Count(all, IsBad) + 1
  {
    CountOne(a, NoJson, Meta(Start, 0), b, IsStart);
    CountOne(a, NoJson, Meta(Start, 0), b, IsEnd);
    CountOne(a, NoJson, Meta(Start, 0), b, IsBad);
  }

  lemma CountOne(a: seq<Line>, l: Line, m: Line, b: seq<Line>, p: Line -> bool)
    ensures Count(a + ([l] + b), p) + One(p(m)) == Count(a + ([m] + b), p) + One(p(l))
  {
    CountConcat(a, [l] + b, p);
    CountConcat(a, [m] + b, p);
    CountConcat([l], b, p);
    CountConcat([m], b, p);
    assert [l][..0] == [] && [m][..0] == [];
  }
}
