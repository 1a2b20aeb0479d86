/** The reader accepts exactly the documents of the grammar, with exactly their meaning. */
module JsonGrammar {
  import opened JsonLexis
  import opened JsonReader

  lemma SourceStart(d: Doc)
    requires WellFormed(d)
    ensures Source(d) != [] && !IsSpace(Source(d)[0])
    ensures Source(d)[0] != CLOSE_BRACKET && Source(d)[0] != CLOSE_BRACE
  {
  }

  lemma SkipTwice(s: Text)
    ensures SkipSpace(SkipSpace(s)) == SkipSpace(s)
  {
  }

  lemma SkipTo(space: Text, rest: Text)
    requires AllSpace(space) && rest != [] && !IsSpace(rest[0])
    ensures SkipSpace(space + rest) == rest
  {
    SkipSpaceOver(space, rest);
  }

  lemma SpaceEndsNumber(space: Text, rest: Text)
    requires AllSpace(space) && EndsNumber(rest)
    ensures EndsNumber(space + rest)
  {
    if space == [] {
      assert space + rest == rest;
    }
  }

  lemma SkippedElements(s: Text, items: seq<Json>)
    ensures ReadElements(s, items) == ReadElements(SkipSpace(s), items)
  {
    SkipTwice(s);
    assert ReadValue(SkipSpace(s)) == ReadValue(s);
  }

  lemma SkippedMembers(s: Text, fields: seq<Field>)
    ensures ReadMembers(s, fields) == ReadMembers(SkipSpace(s), fields)
  {
    SkipTwice(s);
  }

  // ----- every document is read, with its meaning

  lemma ScalarComplete(d: Doc, rest: Text)
    requires WellFormed(d) && EndsNumber(rest) && !d.DArray? && !d.DObject?
    ensures ReadScalar(Source(d) + rest) == Got(Meaning(d), rest)
    ensures (Source(d) + rest)[0] != OPEN_BRACE && (Source(d) + rest)[0] != OPEN_BRACKET
  {
    match d
    case DString(pieces) =>
      ScanStringComplete(pieces, rest);
    case DWord(w) =>
      ScanWordComplete(w, rest);
    case DNumber(n) =>
      NumberComplete(n, rest);
  }

  lemma NumberComplete(n: Number, rest: Text)
    requires n.WellFormed() && EndsNumber(rest)
    ensures ReadScalar(n.Source() + rest) == Got(NumberValue(n), rest)
    ensures StartsLikeNumber(n.Source() + rest)
  {
    NoWordBeforeNumber(n, rest);
    ScanNumberComplete(n, rest);
  }

  predicate StartsLikeNumber(s: Text) {
    s != [] && (IsDigit(s[0]) || (s[0] == MINUS && |s| > 1 && IsDigit(s[1])))
  }

  lemma NoWordBeforeNumber(n: Number, rest: Text)
    requires n.WellFormed()
    ensures ScanWord(n.Source() + rest) == Fail
    ensures StartsLikeNumber(n.Source() + rest)
  {
    var s := n.Source() + rest;
    assert n.Magnitude()[0] == n.whole[0];
    assert s[0] == n.Source()[0] && (n.minus ==> s[1] == n.Magnitude()[0]);
    forall w: Word
      ensures WordIf(w, s) == Fail
    {
      NotThisWord(w, s);
    }
  }

  lemma NotThisWord(w: Word, s: Text)
    requires StartsLikeNumber(s)
    ensures WordIf(w, s) == Fail
  {
    StartsWithHead(s, w.Spelling());
  }

  lemma {:induction false} ValueComplete(space: Text, d: Doc, rest: Text)
    requires AllSpace(space) && WellFormed(d) && EndsNumber(rest)
    ensures ReadValue(space + (Source(d) + rest)) == Got(Meaning(d), rest)
    decreases d, 2
  {
    var t := Source(d) + rest;
    SourceStart(d);
    SkipTo(space, t);
    SkipTo([], t);
    assert [] + t == t;
    match d
    case DArray(inside, es) => ArrayComplete(inside, es, rest);
    case DObject(inside, ms) => ObjectComplete(inside, ms, rest);
    case _ => ScalarComplete(d, rest);
  }

  lemma {:induction false} ArrayComplete(inside: Text, es: seq<Element>, rest: Text)
    requires WellFormed(DArray(inside, es))
    ensures ReadValue(Source(DArray(inside, es)) + rest) == Got(Meaning(DArray(inside, es)), rest)
    decreases es, 1
  {
    var t := Source(DArray(inside, es)) + rest;
    var tail := [CLOSE_BRACKET] + rest;
    if es == [] {
      assert t[1..] == inside + tail;
      SkipTo(inside, tail);
      assert tail[1..] == rest;
    } else {
      var u := ElementsSource(es) + tail;
      assert t[1..] == u;
      ElementsComplete(es, [], rest);
      SkippedElements(u, []);
      ElementsStart(es, tail);
    }
  }

  lemma {:induction false} ObjectComplete(inside: Text, ms: seq<Member>, rest: Text)
    requires WellFormed(DObject(inside, ms))
    ensures ReadValue(Source(DObject(inside, ms)) + rest) == Got(Meaning(DObject(inside, ms)), rest)
    decreases ms, 1
  {
    var t := Source(DObject(inside, ms)) + rest;
    var tail := [CLOSE_BRACE] + rest;
    if ms == [] {
      assert t[1..] == inside + tail;
      SkipTo(inside, tail);
      assert tail[1..] == rest;
    } else {
      var u := MembersSource(ms) + tail;
      assert t[1..] == u;
      MembersComplete(ms, [], rest);
      SkippedMembers(u, []);
      MembersStart(ms, tail);
    }
  }

  lemma ElementsStart(es: seq<Element>, tail: Text)
    requires es != [] && ElementsWellFormed(es)
    ensures var u := SkipSpace(ElementsSource(es) + tail); u != [] && u[0] != CLOSE_BRACKET
  {
    var after := es[0].after + (if |es| == 1 then [] else [COMMA] + ElementsSource(es[1..]));
    SourceStart(es[0].value);
    assert ElementsSource(es) + tail == es[0].before + (Source(es[0].value) + (after + tail));
    SkipTo(es[0].before, Source(es[0].value) + (after + tail));
  }

  lemma MembersStart(ms: seq<Member>, tail: Text)
    requires ms != [] && MembersWellFormed(ms)
    ensures var u := SkipSpace(MembersSource(ms) + tail); u != [] && u[0] != CLOSE_BRACE
  {
    var m := ms[0];
    var behind := m.beforeValue
                  + (Source(m.value) + (m.after + (if |ms| == 1 then [] else [COMMA] + MembersSource(ms[1..]))));
    assert MembersSource(ms) == KeySource(m) + behind;
    KeyStart(m, behind, tail);
  }

  lemma KeyStart(m: Member, behind: Text, tail: Text)
    requires AllSpace(m.before)
    ensures var u := SkipSpace((KeySource(m) + behind) + tail); u != [] && u[0] == QUOTE
  {
    var key := StringSource(m.key) + (m.afterKey + [COLON]);
    assert (KeySource(m) + behind) + tail == m.before + (key + (behind + tail));
    assert key[0] == StringSource(m.key)[0] == QUOTE;
    SkipTo(m.before, key + (behind + tail));
  }

  lemma {:induction false} ElementsComplete(es: seq<Element>, items: seq<Json>, rest: Text)
    requires es != [] && ElementsWellFormed(es)
    ensures ReadElements(ElementsSource(es) + ([CLOSE_BRACKET] + rest), items)
         == Got(JArray(AddElements(items, es)), rest)
    decreases es, 0
  {
    var e := es[0];
    var s := ElementsSource(es) + ([CLOSE_BRACKET] + rest);
    var more := if |es| == 1 then [CLOSE_BRACKET] + rest
                else [COMMA] + (ElementsSource(es[1..]) + ([CLOSE_BRACKET] + rest));
    assert s == e.before + (Source(e.value) + (e.after + more));
    SpaceEndsNumber(e.after, more);
    ValueComplete(e.before, e.value, e.after + more);
    SkipTo(e.after, more);
    if |es| > 1 {
      ElementsComplete(es[1..], items + [Meaning(e.value)], rest);
      assert more[1..] == ElementsSource(es[1..]) + ([CLOSE_BRACKET] + rest);
    } else {
      assert more[1..] == rest;
      assert es[1..] == [];
    }
  }

  lemma {:induction false} MemberComplete(m: Member, more: Text)
    requires MembersWellFormed([m]) && EndsNumber(more)
    ensures ReadMember(KeySource(m) + (m.beforeValue + (Source(m.value) + (m.after + more))))
         == Got(Field(PiecesMeaning(m.key), Meaning(m.value)), m.after + more)
    decreases m.value, 3
  {
    var value := m.beforeValue + (Source(m.value) + (m.after + more));
    var colon := [COLON] + value;
    assert KeySource(m) + value == m.before + (StringSource(m.key) + (m.afterKey + colon));
    SkipTo(m.before, StringSource(m.key) + (m.afterKey + colon));
    ScanStringComplete(m.key, m.afterKey + colon);
    SkipTo(m.afterKey, colon);
    assert colon[1..] == value;
    SpaceEndsNumber(m.after, more);
    ValueComplete(m.beforeValue, m.value, m.after + more);
  }

  lemma {:induction false} MembersComplete(ms: seq<Member>, fields: seq<Field>, rest: Text)
    requires ms != [] && MembersWellFormed(ms)
    ensures ReadMembers(MembersSource(ms) + ([CLOSE_BRACE] + rest), fields)
         == Got(JObject(AddMembers(fields, ms)), rest)
    decreases ms, 0
  {
    var m := ms[0];
    var more := if |ms| == 1 then [CLOSE_BRACE] + rest
                else [COMMA] + (MembersSource(ms[1..]) + ([CLOSE_BRACE] + rest));
    assert MembersSource(ms) + ([CLOSE_BRACE] + rest)
        == KeySource(m) + (m.beforeValue + (Source(m.value) + (m.after + more)));
    assert MembersWellFormed([m]);
    MemberComplete(m, more);
    SkipTo(m.after, more);
    if |ms| > 1 {
      MembersComplete(ms[1..], SetField(fields, PiecesMeaning(m.key), Meaning(m.value)), rest);
      assert more[1..] == MembersSource(ms[1..]) + ([CLOSE_BRACE] + rest);
    } else {
      assert more[1..] == rest;
      assert ms[1..] == [];
    }
  }

  // ----- whatever is read comes from a document

  lemma ScalarSound(t: Text) returns (d: Doc)
    requires ReadScalar(t).Got?
    ensures WellFormed(d) && Meaning(d) == ReadScalar(t).value
    ensures t == Source(d) + ReadScalar(t).rest
  {
    if t != [] && t[0] == QUOTE {
      var pieces := ScanStringSound(t);
      d := DString(pieces);
    } else if ScanWord(t).Got? {
      ScanWordSound(t);
      d := DWord(ScanWord(t).value);
    } else {
      ScanNumberSound(t);
      d := DNumber(ScanNumber(t).value);
    }
  }

  lemma {:induction false} ValueSound(s: Text) returns (space: Text, d: Doc)
    requires ReadValue(s).Got?
    ensures AllSpace(space) && WellFormed(d) && Meaning(d) == ReadValue(s).value
    ensures s == space + (Source(d) + ReadValue(s).rest)
    decreases |s|, 0, 1
  {
    space := SkippedIsSpace(s);
    var t := SkipSpace(s);
    if t != [] && t[0] == OPEN_BRACE {
      d := ObjectSound(s, t);
    } else if t != [] && t[0] == OPEN_BRACKET {
      d := ArraySound(s, t);
    } else {
      d := ScalarSound(t);
    }
  }

  lemma {:induction false} ArraySound(s: Text, t: Text) returns (d: Doc)
    requires t == SkipSpace(s) && t != [] && t[0] == OPEN_BRACKET && ReadValue(s).Got?
    ensures WellFormed(d) && Meaning(d) == ReadValue(s).value
    ensures t == Source(d) + ReadValue(s).rest
    decreases |s|, 0, 0
  {
    var inside := SkippedIsSpace(t[1..]);
    var u := SkipSpace(t[1..]);
    Headed(t, inside, u);
    if u != [] && u[0] == CLOSE_BRACKET {
      d := DArray(inside, []);
      EmptyBracketed(OPEN_BRACKET, inside, u);
    } else {
      var es := ElementsSound(u, []);
      d := ArrayOf(inside, es, ReadValue(s).rest);
    }
  }

  lemma {:induction false} ObjectSound(s: Text, t: Text) returns (d: Doc)
    requires t == SkipSpace(s) && t != [] && t[0] == OPEN_BRACE && ReadValue(s).Got?
    ensures WellFormed(d) && Meaning(d) == ReadValue(s).value
    ensures t == Source(d) + ReadValue(s).rest
    decreases |s|, 0, 0
  {
    var inside := SkippedIsSpace(t[1..]);
    var u := SkipSpace(t[1..]);
    Headed(t, inside, u);
    if u != [] && u[0] == CLOSE_BRACE {
      d := DObject(inside, []);
      EmptyBracketed(OPEN_BRACE, inside, u);
    } else {
      var ms := MembersSound(u, []);
      d := ObjectOf(inside, ms, ReadValue(s).rest);
    }
  }

  lemma Headed(t: Text, inside: Text, u: Text)
    requires t != [] && t[1..] == inside + u
    ensures t == [t[0]] + (inside + u)
  {
  }

  lemma EmptyBracketed(open: Unit, inside: Text, u: Text)
    requires u != []
    ensures [open] + (inside + u) == ([open] + (inside + [u[0]])) + u[1..]
  {
  }

  /** An array around elements as they were read, behind white space. */
  lemma ArrayOf(inside: Text, es: seq<Element>, rest: Text) returns (d: Doc)
    requires AllSpace(inside) && es != [] && ElementsWellFormed(es)
    ensures WellFormed(d) && Meaning(d) == JArray(AddElements([], es))
    ensures Source(d) + rest == [OPEN_BRACKET] + (inside + (ElementsSource(es) + ([CLOSE_BRACKET] + rest)))
  {
    var padded := PadElements(inside, es);
    d := DArray([], padded);
    Bracketed(OPEN_BRACKET, inside, ElementsSource(es), CLOSE_BRACKET, rest);
  }

  lemma ObjectOf(inside: Text, ms: seq<Member>, rest: Text) returns (d: Doc)
    requires AllSpace(inside) && ms != [] && MembersWellFormed(ms)
    ensures WellFormed(d) && Meaning(d) == JObject(AddMembers([], ms))
    ensures Source(d) + rest == [OPEN_BRACE] + (inside + (MembersSource(ms) + ([CLOSE_BRACE] + rest)))
  {
    var padded := PadMembers(inside, ms);
    d := DObject([], padded);
    Bracketed(OPEN_BRACE, inside, MembersSource(ms), CLOSE_BRACE, rest);
  }

  lemma Bracketed(open: Unit, inside: Text, body: Text, close: Unit, rest: Text)
    ensures [open] + (inside + (body + ([close] + rest))) == ([open] + ((inside + body) + [close])) + rest
  {
  }

  lemma PadElements(space: Text, es: seq<Element>) returns (padded: seq<Element>)
    requires AllSpace(space) && es != [] && ElementsWellFormed(es)
    ensures padded != [] && ElementsWellFormed(padded)
    ensures forall items :: AddElements(items, padded) == AddElements(items, es)
    ensures ElementsSource(padded) == space + ElementsSource(es)
  {
    padded := [es[0].(before := space + es[0].before)] + es[1..];
    assert padded[1..] == es[1..];
  }

  lemma PadMembers(space: Text, ms: seq<Member>) returns (padded: seq<Member>)
    requires AllSpace(space) && ms != [] && MembersWellFormed(ms)
    ensures padded != [] && MembersWellFormed(padded)
    ensures forall fields :: AddMembers(fields, padded) == AddMembers(fields, ms)
    ensures MembersSource(padded) == space + MembersSource(ms)
  {
    padded := [ms[0].(before := space + ms[0].before)] + ms[1..];
    assert padded[1..] == ms[1..];
  }

  lemma {:induction false} ElementsSound(s: Text, items: seq<Json>) returns (es: seq<Element>)
    requires ReadElements(s, items).Got?
    ensures es != [] && ElementsWellFormed(es)
    ensures ReadElements(s, items).value == JArray(AddElements(items, es))
    ensures s == ElementsSource(es) + ([CLOSE_BRACKET] + ReadElements(s, items).rest)
    decreases |s|, 1, 0
  {
    var before, d := ValueSound(s);
    var Got(v, rest) := ReadValue(s);
    var after := SkippedIsSpace(rest);
    var t := SkipSpace(rest);
    var e := Element(before, d, after);
    if t[0] == CLOSE_BRACKET {
      es := LastElement(e, t);
    } else {
      var tail := ElementsSound(t[1..], items + [v]);
      es := ConsElement(e, tail, t, ReadElements(s, items).rest);
    }
    Assoc4(before, Source(d), after, t);
  }

  /** An element followed by `t`. */
  function ElementThen(e: Element, t: Text): Text {
    e.before + (Source(e.value) + (e.after + t))
  }

  lemma Assoc4(a: Text, b: Text, c: Text, d: Text)
    ensures a + (b + (c + d)) == (a + (b + c)) + d
  {
  }

  lemma LastElement(e: Element, t: Text) returns (es: seq<Element>)
    requires t != [] && t[0] == CLOSE_BRACKET
    ensures es == [e] && es[1..] == [] && ElementsSource(es) + ([CLOSE_BRACKET] + t[1..]) == ElementThen(e, t)
  {
    es := [e];
    assert t == [CLOSE_BRACKET] + t[1..];
    assert e.after + [] == e.after;
    Assoc4(e.before, Source(e.value), e.after, t);
  }

  lemma ConsElement(e: Element, tail: seq<Element>, t: Text, rest: Text) returns (es: seq<Element>)
    requires t != [] && t[0] == COMMA && tail != []
    requires t[1..] == ElementsSource(tail) + ([CLOSE_BRACKET] + rest)
    ensures es == [e] + tail && es[1..] == tail
    ensures ElementsSource(es) + ([CLOSE_BRACKET] + rest) == ElementThen(e, t)
  {
    es := [e] + tail;
    assert es[1..] == tail;
    assert t == ([COMMA] + ElementsSource(tail)) + ([CLOSE_BRACKET] + rest);
    Assoc5(e.before, Source(e.value), e.after, [COMMA] + ElementsSource(tail), [CLOSE_BRACKET] + rest);
  }

  lemma Assoc5(a: Text, b: Text, c: Text, d: Text, e: Text)
    ensures a + (b + (c + (d + e))) == (a + (b + (c + d))) + e
  {
  }

  lemma {:induction false} MemberSound(s: Text) returns (m: Member)
    requires ReadMember(s).Got?
    ensures MembersWellFormed([m]) && m.after == []
    ensures ReadMember(s).value == Field(PiecesMeaning(m.key), Meaning(m.value))
    ensures s == KeySource(m) + (m.beforeValue + (Source(m.value) + ReadMember(s).rest))
    decreases |s|, 1, 0
  {
    var before := SkippedIsSpace(s);
    var key := ScanStringSound(SkipSpace(s));
    var keyRest := ScanString(SkipSpace(s)).rest;
    var afterKey := SkippedIsSpace(keyRest);
    var colon := SkipSpace(keyRest);
    var beforeValue, d := ValueSound(colon[1..]);
    m := Member(before, key, afterKey, beforeValue, d, []);
    assert colon == [COLON] + colon[1..];
    KeyRegroup(before, StringSource(key), afterKey, colon[1..]);
    OneMember(m);
  }

  lemma KeyRegroup(before: Text, key: Text, afterKey: Text, rest: Text)
    ensures before + (key + (afterKey + ([COLON] + rest))) == (before + (key + (afterKey + [COLON]))) + rest
  {
  }

  lemma OneMember(m: Member)
    requires AllSpace(m.before) && AllWellFormed(m.key) && AllSpace(m.afterKey) && AllSpace(m.beforeValue)
    requires WellFormed(m.value) && AllSpace(m.after)
    ensures MembersWellFormed([m])
  {
    assert [m][1..] == [];
  }

  lemma {:induction false} MembersSound(s: Text, fields: seq<Field>) returns (ms: seq<Member>)
    requires ReadMembers(s, fields).Got?
    ensures ms != [] && MembersWellFormed(ms)
    ensures ReadMembers(s, fields).value == JObject(AddMembers(fields, ms))
    ensures s == MembersSource(ms) + ([CLOSE_BRACE] + ReadMembers(s, fields).rest)
    decreases |s|, 2, 0
  {
    var m := MemberSound(s);
    var Got(f, rest) := ReadMember(s);
    var after := SkippedIsSpace(rest);
    var t := SkipSpace(rest);
    m := m.(after := after);
    if t[0] == CLOSE_BRACE {
      ms := LastMember(m, t);
    } else {
      var tail := MembersSound(t[1..], SetField(fields, f.key, f.value));
      ms := ConsMember(m, tail, t, ReadMembers(s, fields).rest);
    }
    assert rest == m.after + t;
  }

  /** A member followed by `t`. */
  function MemberThen(m: Member, t: Text): Text {
    KeySource(m) + (m.beforeValue + (Source(m.value) + (m.after + t)))
  }

  lemma LastMember(m: Member, t: Text) returns (ms: seq<Member>)
    requires t != [] && t[0] == CLOSE_BRACE
    ensures ms == [m] && ms[1..] == [] && MembersSource(ms) + ([CLOSE_BRACE] + t[1..]) == MemberThen(m, t)
  {
    ms := [m];
    assert t == [CLOSE_BRACE] + t[1..];
  }

  lemma ConsMember(m: Member, tail: seq<Member>, t: Text, rest: Text) returns (ms: seq<Member>)
    requires t != [] && t[0] == COMMA && tail != []
    requires t[1..] == MembersSource(tail) + ([CLOSE_BRACE] + rest)
    ensures ms == [m] + tail && ms[1..] == tail
    ensures MembersSource(ms) + ([CLOSE_BRACE] + rest) == MemberThen(m, t)
  {
    ms := [m] + tail;
    assert ms[1..] == tail;
    assert t == ([COMMA] + MembersSource(tail)) + ([CLOSE_BRACE] + rest);
  }

  // ----- main results

  /** `s` is `before`, the document `d`, `after`. */
  ghost predicate Writes(s: Text, before: Text, d: Doc, after: Text) {
    AllSpace(before) && AllSpace(after) && WellFormed(d) && s == before + (Source(d) + after)
  }

  /** The reader takes exactly the documents of the grammar, and gives each its meaning. */
  lemma ReadIffWritten(s: Text, v: Json)
    ensures Read(s) == Some(v) <==> exists before, d, after :: Writes(s, before, d, after) && Meaning(d) == v
  {
    if Read(s) == Some(v) {
      var before, d := ValueSound(s);
      var after := SkippedIsSpace(ReadValue(s).rest);
      assert after + [] == after;
      assert Writes(s, before, d, after);
    }
    if before, d, after :| Writes(s, before, d, after) && Meaning(d) == v {
      WrittenIsRead(s, before, d, after);
    }
  }

  lemma WrittenIsRead(s: Text, before: Text, d: Doc, after: Text)
    requires Writes(s, before, d, after)
    ensures Read(s) == Some(Meaning(d))
  {
    assert after + [] == after;
    SpaceEndsNumber(after, []);
    ValueComplete(before, d, after);
    SkipSpaceOver(after, []);
  }

  /** A string is read as the units its source spells, in whatever way it spells each. */
  lemma SpelledIsRead(before: Text, sources: seq<Text>, units: Text, after: Text)
    requires AllSpace(before) && AllSpace(after) && AllSpelled(sources, units)
    ensures Read(before + (([QUOTE] + Concat(sources) + [QUOTE]) + after)) == Some(JString(units))
  {
    var pieces := SpelledArePieces(sources, units);
    WrittenIsRead(before + (([QUOTE] + Concat(sources) + [QUOTE]) + after), before, DString(pieces), after);
  }

  /** The document with no white space. */
  function Tight(d: Doc): Doc {
    match d
    case DArray(_, es) => DArray([], TightElements(es))
    case DObject(_, ms) => DObject([], TightMembers(ms))
    case _ => d
  }

  function TightElements(es: seq<Element>): seq<Element> {
    if es == [] then [] else [Element([], Tight(es[0].value), [])] + TightElements(es[1..])
  }

  function TightMembers(ms: seq<Member>): seq<Member> {
    if ms == [] then []
    else [Member([], ms[0].key, [], [], Tight(ms[0].value), [])] + TightMembers(ms[1..])
  }

  lemma {:induction false} TightMeaning(d: Doc)
    requires WellFormed(d)
    ensures WellFormed(Tight(d)) && Meaning(Tight(d)) == Meaning(d)
    decreases d, 1
  {
    match d
    case DArray(_, es) => TightElementsMeaning(es, []);
    case DObject(_, ms) => TightMembersMeaning(ms, []);
    case _ =>
  }

  lemma {:induction false} TightElementsMeaning(es: seq<Element>, items: seq<Json>)
    requires ElementsWellFormed(es)
    ensures ElementsWellFormed(TightElements(es))
    ensures AddElements(items, TightElements(es)) == AddElements(items, es)
    decreases es, 0
  {
    if es != [] {
      TightMeaning(es[0].value);
      TightElementsMeaning(es[1..], items + [Meaning(es[0].value)]);
      assert TightElements(es)[1..] == TightElements(es[1..]);
    }
  }

  lemma {:induction false} TightMembersMeaning(ms: seq<Member>, fields: seq<Field>)
    requires MembersWellFormed(ms)
    ensures MembersWellFormed(TightMembers(ms))
    ensures AddMembers(fields, TightMembers(ms)) == AddMembers(fields, ms)
    decreases ms, 0
  {
    if ms != [] {
      TightMeaning(ms[0].value);
      TightMembersMeaning(ms[1..], SetField(fields, PiecesMeaning(ms[0].key), Meaning(ms[0].value)));
      assert TightMembers(ms)[1..] == TightMembers(ms[1..]);
    }
  }

  /** White space between tokens never changes the result: two spacings of one document read alike. */
  lemma SpacingIsIrrelevant(s1: Text, d1: Doc, s2: Text, d2: Doc, b1: Text, a1: Text, b2: Text, a2: Text)
    requires Writes(s1, b1, d1, a1) && Writes(s2, b2, d2, a2) && Tight(d1) == Tight(d2)
    ensures Read(s1) == Read(s2) == Read(Source(Tight(d1))) && Read(s1).Some?
  {
    WrittenIsRead(s1, b1, d1, a1);
    WrittenIsRead(s2, b2, d2, a2);
    TightMeaning(d1);
    TightMeaning(d2);
    var t := Tight(d1);
    assert Source(t) == [] + (Source(t) + []);
    assert Writes(Source(t), [], t, []);
    WrittenIsRead(Source(t), [], t, []);
  }
}
