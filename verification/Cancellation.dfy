/** The cooperative `SIGTERM` handler of `bajutsu/common/cancellation.py`, as a state machine over signals, clock
    ticks and the end of the run. */
module Cancellation {

  datatype Option<+T> = None | Some(value: T)

  /** Who answers a signal: this handler, or whoever did before the block was entered. */
  datatype Handler = Ours | Prior

  /** The run, then the three statements that undo the installation, one at a time. */
  datatype Phase = Inside | Disarmed | TermRestored | Left

  datatype End = Expired | PriorTerm | PriorAlarm

  /** `event` is the latched request, `timer` the armed expiry; `first` is when the first request was answered,
      `late` whether that was after the timer had been disarmed, `armed` how often the timer was armed. */
  datatype State = State(
    now: int, event: bool, timer: Option<int>, term: Handler, alarm: Handler, phase: Phase, end: Option<End>,
    first: Option<int>, late: bool, armed: nat)

  datatype Event = Sigterm | Tick(ticks: nat) | Alarm | Disarm | RestoreTerm | RestoreAlarm

  /** The margin beyond the grace window. */
  const MARGIN := 10

  /** `handler_deadline`. */
  function Deadline(grace: nat): nat {
    grace + MARGIN
  }

  function Entered(now: int): State {
    State(now, false, None, Ours, Ours, Inside, None, None, false, 0)
  }

  /** Whether the event can happen: the clock stops for a timer that has run out. */
  predicate Enabled(s: State, e: Event) {
    s.end.None?
    && match e
       case Sigterm => true
       case Tick(n) => s.timer.Some? ==> s.now + n <= s.timer.value
       case Alarm => s.timer == Some(s.now)
       case Disarm => s.phase == Inside
       case RestoreTerm => s.phase == Disarmed
       case RestoreAlarm => s.phase == TermRestored
  }

  function Next(s: State, e: Event, grace: nat): State
    requires Enabled(s, e)
  {
    match e
    case Sigterm =>
      if s.term == Prior then s.(end := Some(PriorTerm))
      else if s.event then s
      else
        s.(event := true, timer := Some(s.now + Deadline(grace)), first := Some(s.now),
           late := s.phase != Inside, armed := s.armed + 1)
    case Tick(n) => s.(now := s.now + n)
    case Alarm => s.(timer := None, end := Some(if s.alarm == Ours then Expired else PriorAlarm))
    case Disarm => s.(timer := None, phase := Disarmed)
    case RestoreTerm => s.(term := Prior, phase := TermRestored)
    case RestoreAlarm => s.(alarm := Prior, phase := Left)
  }

  /** A run of events from the moment the block is entered. */
  ghost predicate Reaches(events: seq<Event>, start: int, grace: nat, s: State)
    decreases |events|
  {
    if events == [] then s == Entered(start)
    else
      var n := |events| - 1;
      exists before :: Reaches(events[..n], start, grace, before) && Enabled(before, events[n])
        && s == Next(before, events[n], grace)
  }

  // ----- what every event keeps

  predicate Kept(s: State, grace: nat) {
    && (s.event <==> s.first.Some?) && s.armed == (if s.event then 1 else 0)
    && (s.timer.Some? ==> s.event && s.timer.value == s.first.value + Deadline(grace) && s.now <= s.timer.value)
    && (s.event ==> s.now >= s.first.value)
    && (s.late ==> s.event)
    && (s.phase == Inside ==> s.term == s.alarm == Ours && !s.late)
    && (s.phase == Disarmed ==> s.term == s.alarm == Ours)
    && (s.phase == TermRestored ==> s.term == Prior && s.alarm == Ours)
    && (s.phase == Left ==> s.term == s.alarm == Prior)
    && (s.end.None? && s.event ==>
          if s.phase == Inside || s.late then s.timer.Some? else s.timer.None?)
    && (s.end == Some(Expired) ==> s.event && s.now == s.first.value + Deadline(grace))
    && (s.end == Some(PriorAlarm) ==> s.late && s.phase == Left && s.now == s.first.value + Deadline(grace))
    && (s.end == Some(PriorTerm) ==> s.term == Prior)
  }

  lemma EventKeeps(s: State, e: Event, grace: nat)
    requires Kept(s, grace) && Enabled(s, e)
    ensures Kept(Next(s, e, grace), grace)
    ensures s.event ==> Next(s, e, grace).event && Next(s, e, grace).first == s.first
  {
  }

  lemma {:induction false} RunKeeps(events: seq<Event>, start: int, grace: nat, s: State)
    requires Reaches(events, start, grace, s)
    ensures Kept(s, grace)
    decreases |events|
  {
    if events != [] {
      var n := |events| - 1;
      var before :| Reaches(events[..n], start, grace, before) && Enabled(before, events[n])
        && s == Next(before, events[n], grace);
      RunKeeps(events[..n], start, grace, before);
      EventKeeps(before, events[n], grace);
    }
  }

  // ----- over every run

  /** The timer is armed at most once; the process kills itself exactly at the first request plus grace plus
      margin, never before the grace window is over; and no unfinished run outlives that moment. */
  lemma ShutdownIsBounded(events: seq<Event>, start: int, grace: nat, s: State)
    requires Reaches(events, start, grace, s)
    ensures s.armed <= 1
    ensures s.end == Some(Expired) ==>
      s.first.Some? && s.now == s.first.value + Deadline(grace) && s.now > s.first.value + grace
    ensures s.phase == Inside && s.first.Some? ==> s.now <= s.first.value + Deadline(grace)
  {
    RunKeeps(events, start, grace, s);
  }

  /** A second request changes nothing. */
  lemma SecondRequestIsIgnored(events: seq<Event>, start: int, grace: nat, s: State)
    requires Reaches(events, start, grace, s) && s.event && s.end.None? && s.term == Ours
    ensures Next(s, Sigterm, grace) == s
  {
    RunKeeps(events, start, grace, s);
  }

  // ----- a request on the way out

  /** The first `SIGTERM` of a run. */
  predicate FirstRequest(events: seq<Event>, i: nat) {
    i < |events| && events[i] == Sigterm && Sigterm !in events[..i]
  }

  /** It comes after the timer was disarmed and before the handler was put back. */
  predicate RequestedLate(events: seq<Event>) {
    exists i :: 0 <= i < |events| && FirstRequest(events, i) && Disarm in events[..i] && RestoreTerm !in events[..i]
  }

  lemma OneMoreEvent(events: seq<Event>, e: Event)
    ensures RequestedLate(events + [e]) <==>
      RequestedLate(events) || (e == Sigterm && Sigterm !in events && Disarm in events && RestoreTerm !in events)
  {
    var all := events + [e];
    forall i | 0 <= i < |events|
      ensures all[..i] == events[..i] && (FirstRequest(all, i) <==> FirstRequest(events, i))
    {
      assert all[..i] == events[..i];
    }
    assert all[..|events|] == events;
    if e == Sigterm && Sigterm !in events && Disarm in events && RestoreTerm !in events {
      assert FirstRequest(all, |events|);
    }
  }

  /** What a state knows of the events before it. */
  lemma {:induction false} StateKnows(events: seq<Event>, start: int, grace: nat, s: State)
    requires Reaches(events, start, grace, s)
    ensures s.phase == Inside <==> Disarm !in events
    ensures s.phase == Inside || s.phase == Disarmed <==> RestoreTerm !in events
    ensures s.end.None? ==> (s.event <==> Sigterm in events)
    ensures s.late <==> RequestedLate(events)
    decreases |events|
  {
    if events != [] {
      var n := |events| - 1;
      var before :| Reaches(events[..n], start, grace, before) && Enabled(before, events[n])
        && s == Next(before, events[n], grace);
      StateKnows(events[..n], start, grace, before);
      RunKeeps(events[..n], start, grace, before);
      assert events == events[..n] + [events[n]];
      OneMoreEvent(events[..n], events[n]);
    }
  }

  /** Leaving the block puts both handlers back; the timer is left disarmed exactly when the first request did not come
      between its disarming and the restoring of the `SIGTERM` handler. */
  lemma LeavingDisarmsIff(events: seq<Event>, start: int, grace: nat, s: State)
    requires Reaches(events, start, grace, s) && s.phase == Left && s.end.None?
    ensures s.term == Prior && s.alarm == Prior
    ensures s.timer == None <==> !RequestedLate(events)
  {
    RunKeeps(events, start, grace, s);
    StateKnows(events, start, grace, s);
  }

  /** A finished run is killed by the alarm only after such a late request. */
  lemma StrayAlarmIsLate(events: seq<Event>, start: int, grace: nat, s: State)
    requires Reaches(events, start, grace, s) && s.end == Some(PriorAlarm)
    ensures s.phase == Left && RequestedLate(events)
  {
    RunKeeps(events, start, grace, s);
    StateKnows(events, start, grace, s);
  }

  function LateRequest(grace: nat): seq<Event> {
    [Disarm, Sigterm, RestoreTerm, RestoreAlarm, Tick(Deadline(grace)), Alarm]
  }

  function AfterAll(events: seq<Event>, start: int, grace: nat): Option<State> {
    if events == [] then Some(Entered(start))
    else
      var before := AfterAll(events[..|events| - 1], start, grace);
      var e := events[|events| - 1];
      if before.Some? && Enabled(before.value, e) then Some(Next(before.value, e, grace)) else None
  }

  lemma {:induction false} AfterAllReaches(events: seq<Event>, start: int, grace: nat)
    requires AfterAll(events, start, grace).Some?
    ensures Reaches(events, start, grace, AfterAll(events, start, grace).value)
    decreases |events|
  {
    if events != [] {
      AfterAllReaches(events[..|events| - 1], start, grace);
    }
  }

  /** One such run: the block has been left, and the alarm of a request answered on the way out still comes. */
  lemma LateRequestKillsFinishedRun(start: int, grace: nat)
    ensures var s := AfterAll(LateRequest(grace), start, grace);
      && s.Some? && Reaches(LateRequest(grace), start, grace, s.value)
      && s.value.phase == Left && s.value.end == Some(PriorAlarm)
  {
    var e := LateRequest(grace);
    assert e[..5][..4][..3][..2][..1][..0] == [];
    assert e[..1] == [Disarm];
    assert e[..2] == [Disarm, Sigterm] && e[..2][..1] == e[..1];
    assert e[..3][..2] == e[..2] && e[..4][..3] == e[..3] && e[..5][..4] == e[..4];
    var s1 := Next(Entered(start), Disarm, grace);
    assert AfterAll(e[..1], start, grace) == Some(s1) by { assert e[..1][..0] == []; }
    var s2 := Next(s1, Sigterm, grace);
    assert AfterAll(e[..2], start, grace) == Some(s2);
    var s3 := Next(s2, RestoreTerm, grace);
    assert AfterAll(e[..3], start, grace) == Some(s3);
    var s4 := Next(s3, RestoreAlarm, grace);
    assert AfterAll(e[..4], start, grace) == Some(s4);
    var s5 := Next(s4, Tick(Deadline(grace)), grace);
    assert AfterAll(e[..5], start, grace) == Some(s5);
    AfterAllReaches(e, start, grace);
  }
}
