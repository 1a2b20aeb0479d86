/** The synthesis windows of a recording and the drops they cover (`windows`, `attribute` and the loop of `analyze`
    in `scripts/synthesis_stream_report.py`). */
module SynthesisWindows {

  datatype Option<+T> = None | Some(value: T)

  type Key = string

  /** A marker of the runner's; `serving` and `fence` open and close nothing. */
  datatype Marker = Begin(key: Key) | End(key: Key) | Abort(key: Key) | Other

  /** A recorded line: its own timestamp, its marker if it is a runner's and has one, and whether it reports a
      dropped touch. */
  datatype Event = Event(ts: real, marker: Option<Marker>, isDrop: bool)

  datatype Close = Close(ts: real, aborted: bool)

  datatype Span = Span(key: Key, begin: real, end: Option<Close>)

  // ----- windows

  function BeginOf(e: Event): Option<Key> {
    match e.marker
    case Some(Begin(key)) => Some(key)
    case _ => None
  }

  function CloseOf(e: Event): Option<Key> {
    match e.marker
    case Some(End(key)) => Some(key)
    case Some(Abort(key)) => Some(key)
    case _ => None
  }

  function Closing(e: Event): Close {
    Close(e.ts, e.marker.Some? && e.marker.value.Abort?)
  }

  /** The first to arrive of the events a key opens, or closes, a window by. */
  function FirstBegin(events: seq<Event>, key: Key): Option<real> {
    if events == [] then None
    else if BeginOf(events[0]) == Some(key) then Some(events[0].ts) else FirstBegin(events[1..], key)
  }

  function FirstClose(events: seq<Event>, key: Key): Option<Close> {
    if events == [] then None
    else if CloseOf(events[0]) == Some(key) then Some(Closing(events[0])) else FirstClose(events[1..], key)
  }

  /** `setdefault`: what was first stays. */
  function Or<T>(known: Option<T>, arrives: bool, x: T): Option<T> {
    if known.Some? || !arrives then known else Some(x)
  }

  /** `span` is the window of its key. */
  predicate IsWindow(events: seq<Event>, span: Span) {
    FirstBegin(events, span.key) == Some(span.begin) && FirstClose(events, span.key) == span.end
  }

  lemma {:induction false} FirstBeginSnoc(events: seq<Event>, e: Event, key: Key)
    ensures FirstBegin(events + [e], key) == Or(FirstBegin(events, key), BeginOf(e) == Some(key), e.ts)
  {
    if events == [] {
      assert events + [e] == [e];
    } else {
      FirstBeginSnoc(events[1..], e, key);
      assert (events + [e])[1..] == events[1..] + [e];
    }
  }

  lemma {:induction false} FirstCloseSnoc(events: seq<Event>, e: Event, key: Key)
    ensures FirstClose(events + [e], key) == Or(FirstClose(events, key), CloseOf(e) == Some(key), Closing(e))
  {
    if events == [] {
      assert events + [e] == [e];
    } else {
      FirstCloseSnoc(events[1..], e, key);
      assert (events + [e])[1..] == events[1..] + [e];
    }
  }

  /** The keys in the order of their first begins. */
  function BeginOrder(events: seq<Event>): seq<Key> {
    if events == [] then []
    else
      var before, key := BeginOrder(events[..|events| - 1]), BeginOf(events[|events| - 1]);
      if key.Some? && key.value !in before then before + [key.value] else before
  }

  /** What `begins` and `ends` hold of the events read. */
  ghost predicate Collected(events: seq<Event>, order: seq<Key>, begins: map<Key, real>, ends: map<Key, Close>) {
    && (forall key :: FirstBegin(events, key) == if key in begins then Some(begins[key]) else None)
    && (forall key :: FirstClose(events, key) == if key in ends then Some(ends[key]) else None)
    && order == BeginOrder(events)
    && (forall key :: key in order <==> key in begins)
    && (forall a, b :: 0 <= a < b < |order| ==> order[a] != order[b])
  }

  lemma OneMoreEvent(events: seq<Event>, e: Event)
    ensures forall key :: FirstBegin(events + [e], key) == Or(FirstBegin(events, key), BeginOf(e) == Some(key), e.ts)
    ensures forall key :: FirstClose(events + [e], key) == Or(FirstClose(events, key), CloseOf(e) == Some(key), Closing(e))
  {
    forall key {
      FirstBeginSnoc(events, e, key);
    }
    forall key {
      FirstCloseSnoc(events, e, key);
    }
  }

  /** The two dictionaries; the order of the first is that of its keys' first begins. */
  method Collect(events: seq<Event>) returns (order: seq<Key>, begins: map<Key, real>, ends: map<Key, Close>)
    ensures Collected(events, order, begins, ends)
  {
    order, begins, ends := [], map[], map[];
    for i := 0 to |events|
      invariant Collected(events[..i], order, begins, ends)
    {
      var e := events[i];
      OneMoreEvent(events[..i], e);
      assert events[..i + 1] == events[..i] + [e] && events[..i + 1][..i] == events[..i];
      match e.marker
      case Some(Begin(key)) =>
        if key !in begins {
          order := order + [key];
          begins := begins[key := e.ts];
        }
      case Some(End(key)) =>
        if key !in ends {
          ends := ends[key := Close(e.ts, false)];
        }
      case Some(Abort(key)) =>
        if key !in ends {
          ends := ends[key := Close(e.ts, true)];
        }
      case _ =>
    }
    assert events[..|events|] == events;
  }

  /** `windows`: begins and ends are paired by key, whichever arrives first, and each key that begins has one window. */
  method Windows(events: seq<Event>) returns (spans: seq<Span>)
    ensures forall span :: span in spans <==> IsWindow(events, span)
    ensures forall i, j :: 0 <= i < j < |spans| ==> spans[i].key != spans[j].key
    ensures |spans| == |BeginOrder(events)| && forall i :: 0 <= i < |spans| ==> spans[i].key == BeginOrder(events)[i]
  {
    var order, begins, ends := Collect(events);
    spans := [];
    for i := 0 to |order|
      invariant |spans| == i
      invariant forall j :: 0 <= j < i ==> spans[j].key == order[j] && IsWindow(events, spans[j])
    {
      var key := order[i];
      spans := spans + [Span(key, begins[key], if key in ends then Some(ends[key]) else None)];
    }
    forall span | IsWindow(events, span)
      ensures span in spans
    {
      assert span.key in order;
      var j :| 0 <= j < |order| && order[j] == span.key;
      assert spans[j] == span;
    }
  }

  /** The `i`-th event is the first to open a window of the key. */
  ghost predicate OpensFirst(events: seq<Event>, key: Key, i: int) {
    && 0 <= i < |events| && events[i].marker == Some(Begin(key))
    && forall j :: 0 <= j < i ==> events[j].marker != Some(Begin(key))
  }

  /** The `i`-th event is the first to close one, by its end or by an abort. */
  ghost predicate ClosesFirst(events: seq<Event>, key: Key, i: int) {
    && 0 <= i < |events| && (events[i].marker == Some(End(key)) || events[i].marker == Some(Abort(key)))
    && forall j :: 0 <= j < i ==> events[j].marker != Some(End(key)) && events[j].marker != Some(Abort(key))
  }

  /** A key's window runs from its first begin to its first end or abort; it is aborted if and only if an abort came
      first, and open if and only if neither came. */
  lemma WindowIff(events: seq<Event>, span: Span)
    ensures IsWindow(events, span)
       <==> && (exists i :: OpensFirst(events, span.key, i) && span.begin == events[i].ts)
            && match span.end
               case None => forall i :: !ClosesFirst(events, span.key, i)
               case Some(end) => exists i :: ClosesFirst(events, span.key, i) && end.ts == events[i].ts
                                             && (end.aborted <==> events[i].marker == Some(Abort(span.key)))
  {
    FirstBeginAt(events, span.key);
    FirstCloseAt(events, span.key);
  }

  lemma {:induction false} FirstBeginAt(events: seq<Event>, key: Key)
    ensures forall i :: OpensFirst(events, key, i) ==> FirstBegin(events, key) == Some(events[i].ts)
    ensures FirstBegin(events, key).Some? ==> exists i :: OpensFirst(events, key, i)
  {
    if events != [] {
      FirstBeginAt(events[1..], key);
      if events[0].marker == Some(Begin(key)) {
        assert OpensFirst(events, key, 0);
      } else {
        forall i | 0 < i
          ensures OpensFirst(events, key, i) <==> OpensFirst(events[1..], key, i - 1)
        {
          OpensLater(events, key, i);
        }
        if i :| OpensFirst(events[1..], key, i) {
          assert OpensFirst(events, key, i + 1);
        }
      }
    }
  }

  lemma OpensLater(events: seq<Event>, key: Key, i: int)
    requires events != [] && events[0].marker != Some(Begin(key)) && 0 < i
    ensures OpensFirst(events, key, i) <==> OpensFirst(events[1..], key, i - 1)
  {
    var rest := events[1..];
    assert forall j :: 0 <= j < |rest| ==> rest[j] == events[j + 1];
    if OpensFirst(rest, key, i - 1) {
      forall j | 0 <= j < i
        ensures events[j].marker != Some(Begin(key))
      {
        assert j > 0 ==> events[j] == rest[j - 1];
      }
    }
  }

  lemma {:induction false} FirstCloseAt(events: seq<Event>, key: Key)
    ensures forall i :: ClosesFirst(events, key, i) ==>
      FirstClose(events, key) == Some(Close(events[i].ts, events[i].marker == Some(Abort(key))))
    ensures FirstClose(events, key).Some? ==> exists i :: ClosesFirst(events, key, i)
  {
    if events != [] {
      FirstCloseAt(events[1..], key);
      if events[0].marker == Some(End(key)) || events[0].marker == Some(Abort(key)) {
        assert ClosesFirst(events, key, 0);
      } else {
        forall i | 0 < i
          ensures ClosesFirst(events, key, i) <==> ClosesFirst(events[1..], key, i - 1)
        {
          ClosesLater(events, key, i);
        }
        if i :| ClosesFirst(events[1..], key, i) {
          assert ClosesFirst(events, key, i + 1);
        }
      }
    }
  }

  lemma ClosesLater(events: seq<Event>, key: Key, i: int)
    requires events != [] && events[0].marker != Some(End(key)) && events[0].marker != Some(Abort(key)) && 0 < i
    ensures ClosesFirst(events, key, i) <==> ClosesFirst(events[1..], key, i - 1)
  {
    var rest := events[1..];
    assert forall j :: 0 <= j < |rest| ==> rest[j] == events[j + 1];
    if ClosesFirst(rest, key, i - 1) {
      forall j | 0 <= j < i
        ensures events[j].marker != Some(End(key)) && events[j].marker != Some(Abort(key))
      {
        assert j > 0 ==> events[j] == rest[j - 1];
      }
    }
  }

  ghost predicate Opens(events: seq<Event>, key: Key) {
    exists i :: OpensFirst(events, key, i)
  }

  /** The windows stand in the order in which their keys first begin. */
  ghost predicate InBeginOrder(events: seq<Event>, order: seq<Key>) {
    (forall key :: key in order <==> Opens(events, key)) && Ordered(events, order)
  }

  ghost predicate Ordered(events: seq<Event>, order: seq<Key>) {
    forall x, y :: 0 <= x < y < |order| ==> BeginsBefore(events, order[x], order[y])
  }

  ghost predicate BeginsBefore(events: seq<Event>, a: Key, b: Key) {
    exists i, j :: OpensFirst(events, a, i) && OpensFirst(events, b, j) && i < j
  }

  lemma OpensEarlier(events: seq<Event>, e: Event, key: Key, i: int)
    requires i < |events|
    ensures OpensFirst(events + [e], key, i) <==> OpensFirst(events, key, i)
  {
    assert forall j :: 0 <= j < |events| ==> (events + [e])[j] == events[j];
  }

  lemma {:induction false} BeginOrderIs(events: seq<Event>)
    ensures InBeginOrder(events, BeginOrder(events))
  {
    if events != [] {
      var before, e := events[..|events| - 1], events[|events| - 1];
      BeginOrderIs(before);
      assert events == before + [e];
      KeysGrow(before, e);
      OrderGrows(before, e, BeginOrder(before));
    }
  }

  lemma BeginOrderSnoc(before: seq<Event>, e: Event)
    ensures var known := BeginOrder(before);
      BeginOrder(before + [e])
      == if BeginOf(e).Some? && BeginOf(e).value !in known then known + [BeginOf(e).value] else known
  {
    assert (before + [e])[..|before|] == before;
  }

  lemma KeysGrow(before: seq<Event>, e: Event)
    requires InBeginOrder(before, BeginOrder(before))
    ensures forall key :: key in BeginOrder(before + [e]) <==> Opens(before + [e], key)
  {
    BeginOrderSnoc(before, e);
    forall key
      ensures key in BeginOrder(before + [e]) <==> Opens(before + [e], key)
    {
      OpensSome(before, e, key);
    }
  }

  lemma OrderGrows(before: seq<Event>, e: Event, known: seq<Key>)
    requires known == BeginOrder(before) && InBeginOrder(before, known)
    ensures Ordered(before + [e], BeginOrder(before + [e]))
  {
    var order := BeginOrder(before + [e]);
    BeginOrderSnoc(before, e);
    forall x, y | 0 <= x < y < |order|
      ensures BeginsBefore(before + [e], order[x], order[y])
    {
      if y < |known| {
        assert BeginsBefore(before, known[x], known[y]);
        StillBefore(before, e, known[x], known[y]);
      } else {
        assert known[x] in known;
        OpensLast(before, e, order[y]);
        BeforeLast(before, e, known[x], order[y]);
      }
    }
  }

  lemma OpensSome(before: seq<Event>, e: Event, key: Key)
    requires InBeginOrder(before, BeginOrder(before))
    ensures Opens(before + [e], key) <==> key in BeginOrder(before) || e.marker == Some(Begin(key))
  {
    OpensLast(before, e, key);
    if i :| OpensFirst(before, key, i) {
      OpensEarlier(before, e, key, i);
    }
    if i :| OpensFirst(before + [e], key, i) && i < |before| {
      OpensEarlier(before, e, key, i);
    }
  }

  lemma StillBefore(before: seq<Event>, e: Event, a: Key, b: Key)
    requires BeginsBefore(before, a, b)
    ensures BeginsBefore(before + [e], a, b)
  {
    var i, j :| OpensFirst(before, a, i) && OpensFirst(before, b, j) && i < j;
    OpensEarlier(before, e, a, i);
    OpensEarlier(before, e, b, j);
  }

  lemma BeforeLast(before: seq<Event>, e: Event, a: Key, b: Key)
    requires Opens(before, a) && OpensFirst(before + [e], b, |before|)
    ensures BeginsBefore(before + [e], a, b)
  {
    var i :| OpensFirst(before, a, i);
    OpensEarlier(before, e, a, i);
  }

  lemma OpensLast(before: seq<Event>, e: Event, key: Key)
    requires InBeginOrder(before, BeginOrder(before))
    ensures OpensFirst(before + [e], key, |before|) <==> e.marker == Some(Begin(key)) && key !in BeginOrder(before)
  {
    var events := before + [e];
    assert forall j :: 0 <= j < |before| ==> events[j] == before[j];
    FirstBeginAt(before, key);
    var i := FirstBeginIs(before, key);
    if key !in BeginOrder(before) {
      assert forall j :: 0 <= j < |before| ==> before[j] in before;
    }
  }

  // ----- arrival order

  ghost predicate SameWindows(a: seq<Event>, b: seq<Event>) {
    forall span :: IsWindow(a, span) <==> IsWindow(b, span)
  }

  /** All begins of a key carry one time; all ends of a key that begins carry one time and one outcome. */
  ghost predicate Settled(events: seq<Event>) {
    && (forall e, f, key :: e in events && f in events && BeginOf(e) == Some(key) && BeginOf(f) == Some(key) ==> e.ts == f.ts)
    && (forall d, e, f, key ::
          (d in events && e in events && f in events
           && BeginOf(d) == Some(key) && CloseOf(e) == Some(key) && CloseOf(f) == Some(key))
          ==> Closing(e) == Closing(f))
  }

  lemma {:induction false} FirstBeginIs(events: seq<Event>, key: Key) returns (i: nat)
    ensures match FirstBegin(events, key)
            case None => forall e :: e in events ==> BeginOf(e) != Some(key)
            case Some(ts) => i < |events| && BeginOf(events[i]) == Some(key) && events[i].ts == ts
  {
    i := 0;
    if events != [] && BeginOf(events[0]) != Some(key) {
      i := FirstBeginIs(events[1..], key);
      i := i + 1;
    }
  }

  lemma {:induction false} FirstCloseIs(events: seq<Event>, key: Key) returns (i: nat)
    ensures match FirstClose(events, key)
            case None => forall e :: e in events ==> CloseOf(e) != Some(key)
            case Some(end) => i < |events| && CloseOf(events[i]) == Some(key) && Closing(events[i]) == end
  {
    i := 0;
    if events != [] && CloseOf(events[0]) != Some(key) {
      i := FirstCloseIs(events[1..], key);
      i := i + 1;
    }
  }

  /** In a settled recording, in whatever order, a window is known by what is recorded. */
  lemma SettledWindow(a: seq<Event>, b: seq<Event>, span: Span)
    requires Settled(a) && multiset(a) == multiset(b) && IsWindow(a, span)
    ensures IsWindow(b, span)
  {
    assert forall e :: e in a <==> e in multiset(a);
    assert forall e :: e in b <==> e in multiset(b);
    var i := FirstBeginIs(a, span.key);
    var j := FirstBeginIs(b, span.key);
    var k := FirstCloseIs(a, span.key);
    var l := FirstCloseIs(b, span.key);
    assert a[i] in a && a[i] in b;
    assert FirstBegin(b, span.key).Some? && b[j] in b && b[j] in a;
    if FirstClose(a, span.key).Some? {
      assert a[k] in a && a[k] in b;
    }
    if FirstClose(b, span.key).Some? {
      assert b[l] in b && b[l] in a;
    }
  }

  lemma SettledStays(a: seq<Event>, b: seq<Event>)
    requires Settled(a) && multiset(a) == multiset(b)
    ensures Settled(b)
  {
    assert forall e :: e in a <==> e in multiset(a);
    assert forall e :: e in b <==> e in multiset(b);
  }

  /** One event moved to the front. */
  function Fronted(events: seq<Event>, i: nat): seq<Event>
    requires i < |events|
  {
    [events[i]] + (events[..i] + events[i + 1..])
  }

  lemma FrontedIsReordered(events: seq<Event>, i: nat)
    requires i < |events|
    ensures multiset(Fronted(events, i)) == multiset(events)
  {
    assert events == events[..i] + ([events[i]] + events[i + 1..]);
  }

  ghost predicate OrderIsIrrelevant(a: seq<Event>) {
    forall b :: multiset(a) == multiset(b) ==> SameWindows(a, b)
  }

  lemma OneBegin(a: seq<Event>, i: nat, key: Key)
    requires OrderIsIrrelevant(a) && i < |a| && BeginOf(a[i]) == Some(key)
    ensures FirstBegin(a, key) == Some(a[i].ts)
  {
    var b := Fronted(a, i);
    FrontedIsReordered(a, i);
    assert SameWindows(a, b);
    var span := Span(key, a[i].ts, FirstClose(b, key));
    assert IsWindow(b, span);
    assert IsWindow(a, span);
  }

  lemma OneClose(a: seq<Event>, i: nat, key: Key)
    requires OrderIsIrrelevant(a) && i < |a| && CloseOf(a[i]) == Some(key) && FirstBegin(a, key).Some?
    ensures FirstClose(a, key) == Some(Closing(a[i]))
  {
    var b := Fronted(a, i);
    FrontedIsReordered(a, i);
    assert SameWindows(a, b);
    var span := Span(key, FirstBegin(a, key).value, FirstClose(a, key));
    assert IsWindow(a, span);
    assert IsWindow(b, span);
    assert FirstClose(b, key) == Some(Closing(b[0]));
  }

  lemma IrrelevantIsSettled(a: seq<Event>)
    requires OrderIsIrrelevant(a)
    ensures Settled(a)
  {
    forall e, key | e in a && BeginOf(e) == Some(key)
      ensures FirstBegin(a, key) == Some(e.ts)
    {
      var i :| 0 <= i < |a| && a[i] == e;
      OneBegin(a, i, key);
    }
    forall e, key | e in a && CloseOf(e) == Some(key) && FirstBegin(a, key).Some?
      ensures FirstClose(a, key) == Some(Closing(e))
    {
      var i :| 0 <= i < |a| && a[i] == e;
      OneClose(a, i, key);
    }
  }

  /** The windows do not depend on the order of arrival exactly when each key is settled. */
  lemma OrderIsIrrelevantIff(a: seq<Event>)
    ensures OrderIsIrrelevant(a) <==> Settled(a)
  {
    if OrderIsIrrelevant(a) {
      IrrelevantIsSettled(a);
    }
    if Settled(a) {
      forall b | multiset(a) == multiset(b)
        ensures SameWindows(a, b)
      {
        SettledStays(a, b);
        forall span
          ensures IsWindow(a, span) <==> IsWindow(b, span)
        {
          if IsWindow(a, span) {
            SettledWindow(a, b, span);
          }
          if IsWindow(b, span) {
            SettledWindow(b, a, span);
          }
        }
      }
    }
  }

  // ----- drops

  /** A window with a known end, around a time. */
  predicate Covers(span: Span, ts: real) {
    span.end.Some? && span.begin <= ts <= span.end.value.ts
  }

  /** `attribute`: the window that began last among those around a time, the first of them in a tie. */
  function Attribute(spans: seq<Span>, ts: real): (r: Option<nat>)
    ensures r.None? <==> forall i :: 0 <= i < |spans| ==> !Covers(spans[i], ts)
    ensures r.Some? ==> r.value < |spans| && Covers(spans[r.value], ts)
    ensures r.Some? ==> forall i :: 0 <= i < |spans| && Covers(spans[i], ts) ==>
      spans[i].begin < spans[r.value].begin || (spans[i].begin == spans[r.value].begin && r.value <= i)
  {
    if spans == [] then None
    else
      var n := |spans| - 1;
      var r := Attribute(spans[..n], ts);
      if !Covers(spans[n], ts) then r
      else if r.Some? && spans[n].begin <= spans[r.value].begin then r
      else Some(n)
  }

  /** Whatever the order of the windows, a drop goes to one with the same begin. */
  lemma AttributionIgnoresOrder(a: seq<Span>, b: seq<Span>, ts: real)
    requires multiset(a) == multiset(b)
    ensures Attribute(a, ts).Some? <==> Attribute(b, ts).Some?
    ensures Attribute(a, ts).Some? ==> a[Attribute(a, ts).value].begin == b[Attribute(b, ts).value].begin
  {
    forall span
      ensures span in a <==> span in b
    {
      assert span in a <==> span in multiset(a);
      assert span in b <==> span in multiset(b);
    }
    var r, q := Attribute(a, ts), Attribute(b, ts);
    if r.Some? {
      assert a[r.value] in b;
    }
    if q.Some? {
      assert b[q.value] in a;
    }
  }

  class Window {
    const span: Span
    var drops: seq<Event>

    constructor (span: Span)
      ensures this.span == span && drops == []
    {
      this.span := span;
      drops := [];
    }
  }

  function Spans(wins: seq<Window>): seq<Span> {
    seq(|wins|, i requires 0 <= i < |wins| => wins[i].span)
  }

  datatype Routed = Routed(drop: Event, place: Option<nat>)

  /** The drops of a recording, each with the window it goes to. */
  function Route(events: seq<Event>, spans: seq<Span>): (r: seq<Routed>)
    ensures forall i :: 0 <= i < |r| && r[i].place.Some? ==> r[i].place.value < |spans|
  {
    if events == [] then []
    else
      var e := events[|events| - 1];
      Route(events[..|events| - 1], spans) + if e.isDrop then [Routed(e, Attribute(spans, e.ts))] else []
  }

  /** The drops that go to `place`. */
  function To(routed: seq<Routed>, place: Option<nat>): seq<Event> {
    if routed == [] then []
    else
      var r := routed[|routed| - 1];
      To(routed[..|routed| - 1], place) + if r.place == place then [r.drop] else []
  }

  lemma ToSnoc(routed: seq<Routed>, r: Routed, place: Option<nat>)
    ensures To(routed + [r], place) == To(routed, place) + if r.place == place then [r.drop] else []
  {
    assert (routed + [r])[..|routed|] == routed;
  }

  lemma AllToSnoc(routed: seq<Routed>, r: Routed)
    ensures forall place :: To(routed + [r], place) == To(routed, place) + if r.place == place then [r.drop] else []
  {
    forall place {
      ToSnoc(routed, r, place);
    }
  }

  /** A drop goes where its time puts it, and nothing else goes there. */
  lemma {:induction false} RoutedIff(events: seq<Event>, spans: seq<Span>, place: Option<nat>, e: Event)
    ensures multiset(To(Route(events, spans), place))[e]
         == if e.isDrop && Attribute(spans, e.ts) == place then multiset(events)[e] else 0
  {
    if events != [] {
      var before, last := events[..|events| - 1], events[|events| - 1];
      RoutedIff(before, spans, place, e);
      assert events == before + [last];
      if last.isDrop {
        ToSnoc(Route(before, spans), Routed(last, Attribute(spans, last.ts)), place);
        assert Route(events, spans) == Route(before, spans) + [Routed(last, Attribute(spans, last.ts))];
      } else {
        assert Route(events, spans) == Route(before, spans);
      }
    }
  }

  predicate Distinct(wins: seq<Window>) {
    forall i, j :: 0 <= i < j < |wins| ==> wins[i] != wins[j]
  }

  method Give(wins: seq<Window>, n: nat, e: Event)
    requires Distinct(wins) && n < |wins|
    modifies wins[n]
    ensures forall k :: 0 <= k < |wins| ==> wins[k].drops == old(wins[k].drops) + (if k == n then [e] else [])
  {
    wins[n].drops := wins[n].drops + [e];
  }

  /** The loop over the drops of a recording. */
  method Distribute(events: seq<Event>, wins: seq<Window>) returns (unattributed: seq<Event>)
    requires Distinct(wins) && forall w :: w in wins ==> w.drops == []
    modifies wins
    ensures unattributed == To(Route(events, Spans(wins)), None)
    ensures forall k :: 0 <= k < |wins| ==> wins[k].drops == To(Route(events, Spans(wins)), Some(k))
  {
    unattributed := [];
    var spans := Spans(wins);
    ghost var routed: seq<Routed> := [];
    for i := 0 to |events|
      invariant routed == Route(events[..i], spans)
      invariant unattributed == To(routed, None)
      invariant forall k :: 0 <= k < |wins| ==> wins[k].drops == To(routed, Some(k))
    {
      var e := events[i];
      assert events[..i + 1][..i] == events[..i];
      if e.isDrop {
        var place := Attribute(spans, e.ts);
        AllToSnoc(routed, Routed(e, place));
        routed := routed + [Routed(e, place)];
        if place.None? {
          unattributed := unattributed + [e];
        } else {
          Give(wins, place.value, e);
        }
      }
    }
    assert events[..|events|] == events;
  }

  /** What each of `n` windows has. */
  function Shares(routed: seq<Routed>, n: nat): seq<multiset<Event>> {
    seq(n, k requires 0 <= k < n => multiset(To(routed, Some(k))))
  }

  function Total(shares: seq<multiset<Event>>): multiset<Event> {
    if shares == [] then multiset{} else Total(shares[..|shares| - 1]) + shares[|shares| - 1]
  }

  lemma {:induction false} TotalGrows(shares: seq<multiset<Event>>, k: nat, e: Event)
    requires k < |shares|
    ensures Total(shares[k := shares[k] + multiset{e}]) == Total(shares) + multiset{e}
  {
    var n, grown := |shares| - 1, shares[k := shares[k] + multiset{e}];
    if k < n {
      TotalGrows(shares[..n], k, e);
      assert grown[..n] == shares[..n][k := shares[k] + multiset{e}];
    } else {
      assert grown[..n] == shares[..n];
    }
  }

  lemma {:induction false} TotalOfNone(shares: seq<multiset<Event>>)
    requires forall k :: 0 <= k < |shares| ==> shares[k] == multiset{}
    ensures Total(shares) == multiset{}
  {
    if shares != [] {
      TotalOfNone(shares[..|shares| - 1]);
    }
  }

  lemma ShareGrows(routed: seq<Routed>, r: Routed, n: nat)
    requires r.place.Some? ==> r.place.value < n
    ensures var before := Shares(routed, n);
      Shares(routed + [r], n)
      == if r.place.Some? then before[r.place.value := before[r.place.value] + multiset{r.drop}] else before
  {
    var before, after := Shares(routed, n), Shares(routed + [r], n);
    forall k | 0 <= k < n
      ensures after[k] == if r.place == Some(k) then before[k] + multiset{r.drop} else before[k]
    {
      ShareStep(routed, r, k);
    }
    if r.place.Some? {
      assert after == before[r.place.value := before[r.place.value] + multiset{r.drop}];
    } else {
      assert after == before;
    }
  }

  lemma ShareStep(routed: seq<Routed>, r: Routed, k: nat)
    ensures multiset(To(routed + [r], Some(k)))
         == multiset(To(routed, Some(k))) + if r.place == Some(k) then multiset{r.drop} else multiset{}
  {
    ToSnoc(routed, r, Some(k));
  }

  function Counted(routed: seq<Routed>, n: nat): multiset<Event> {
    Total(Shares(routed, n)) + multiset(To(routed, None))
  }

  lemma CountGrows(routed: seq<Routed>, r: Routed, n: nat)
    requires r.place.Some? ==> r.place.value < n
    ensures Counted(routed + [r], n) == Counted(routed, n) + multiset{r.drop}
  {
    ShareGrows(routed, r, n);
    ToSnoc(routed, r, None);
    var before := Shares(routed, n);
    if r.place.Some? {
      TotalGrows(before, r.place.value, r.drop);
    }
  }

  function DropsIn(events: seq<Event>): seq<Event> {
    if events == [] then []
    else
      var e := events[|events| - 1];
      DropsIn(events[..|events| - 1]) + if e.isDrop then [e] else []
  }

  /** Every drop is counted once: in its window, or as unattributed. */
  lemma {:induction false} DropsAreConserved(events: seq<Event>, spans: seq<Span>)
    ensures Counted(Route(events, spans), |spans|) == multiset(DropsIn(events))
  {
    if events == [] {
      TotalOfNone(Shares([], |spans|));
    } else {
      var e, before := events[|events| - 1], events[..|events| - 1];
      DropsAreConserved(before, spans);
      if e.isDrop {
        var r := Routed(e, Attribute(spans, e.ts));
        CountGrows(Route(before, spans), r, |spans|);
        assert Route(events, spans) == Route(before, spans) + [r];
        assert DropsIn(events) == DropsIn(before) + [e];
      } else {
        assert Route(events, spans) == Route(before, spans) && DropsIn(events) == DropsIn(before);
      }
    }
  }
}
