/** A text is the source of one document, as far as its numbers go: those under repeated keys, which no value keeps,
    included (`bajutsu/codegen/_playwright_dict_match.py`). */
module JsonUnique {
  import opened JsonLexis
  import opened JsonReader
  import opened JsonGrammar

  /** The number tokens in source order. */
  function Numbers(d: Doc): seq<Number> {
    match d
    case DNumber(n) => [n]
    case DArray(_, es) => ElementNumbers(es)
    case DObject(_, ms) => MemberNumbers(ms)
    case _ => []
  }

  function ElementNumbers(es: seq<Element>): seq<Number> {
    if es == [] then [] else Numbers(es[0].value) + ElementNumbers(es[1..])
  }

  function MemberNumbers(ms: seq<Member>): seq<Number> {
    if ms == [] then [] else Numbers(ms[0].value) + MemberNumbers(ms[1..])
  }

  /** One text is written by both, each document with what follows it. */
  ghost predicate Alike(d: Doc, r: Text, d': Doc, r': Text) {
    WellFormed(d) && WellFormed(d') && EndsNumber(r) && EndsNumber(r') && Source(d) + r == Source(d') + r'
  }

  lemma SameMeaning(d: Doc, r: Text, d': Doc, r': Text)
    requires Alike(d, r, d', r')
    ensures Meaning(d) == Meaning(d') && r == r' && Source(d) == Source(d')
  {
    ValueComplete([], d, r);
    ValueComplete([], d', r');
    SameFront(Source(d), Source(d'), r);
  }

  lemma SameFront(a: Text, b: Text, r: Text)
    ensures a + r == b + r ==> a == b
  {
    if a + r == b + r {
      assert |a| == |b| && (a + r)[..|a|] == a && (b + r)[..|b|] == b;
    }
  }

  /** Of words and numbers, a word is never taken for a number. */
  lemma ScalarNumbers(d: Doc, d': Doc)
    requires Alike(d, [], d', []) && d.DNumber?
    ensures d' == d
  {
    var n := d.number;
    assert n.Source() + [] == n.Source();
    NoWordBeforeNumber(n, []);
    ScanNumberComplete(n, []);
    match d'
    case DNumber(n') =>
      assert n'.Source() + [] == n'.Source();
      ScanNumberComplete(n', []);
    case DWord(w) =>
      assert w.Spelling() + [] == w.Spelling();
      ScanWordComplete(w, []);
    case _ =>
  }

  lemma {:induction false} SameNumbers(d: Doc, r: Text, d': Doc, r': Text)
    requires Alike(d, r, d', r')
    ensures r == r' && Numbers(d) == Numbers(d')
    decreases d, 1
  {
    SameMeaning(d, r, d', r');
    assert Source(d) + [] == Source(d) && Source(d') + [] == Source(d');
    if d.DNumber? {
      ScalarNumbers(d, d');
    } else if d'.DNumber? {
      ScalarNumbers(d', d);
    } else if d.DArray? && d'.DArray? {
      ArrayNumbers(d, d');
    } else if d.DObject? && d'.DObject? {
      ObjectNumbers(d, d');
    } else {
      SameFirst(d, d');
    }
  }

  lemma SameFirst(d: Doc, d': Doc)
    requires WellFormed(d) && WellFormed(d') && Source(d) == Source(d')
    ensures d.DArray? <==> d'.DArray?
    ensures d.DObject? <==> d'.DObject?
  {
    KindIsFirst(d);
    KindIsFirst(d');
  }

  lemma KindIsFirst(d: Doc)
    requires WellFormed(d)
    ensures Source(d) != []
    ensures d.DArray? <==> Source(d)[0] == OPEN_BRACKET
    ensures d.DObject? <==> Source(d)[0] == OPEN_BRACE
  {
    if !d.DArray? && !d.DObject? {
      ScalarComplete(d, []);
      assert Source(d) + [] == Source(d);
      SourceStart(d);
    }
  }

  // ----- arrays

  lemma {:induction false} ArrayNumbers(d: Doc, d': Doc)
    requires d.DArray? && d'.DArray? && WellFormed(d) && WellFormed(d') && Source(d) == Source(d')
    ensures Numbers(d) == Numbers(d')
    decreases d, 0
  {
    var u, u' := ArrayInside(d), ArrayInside(d');
    assert u == Source(d)[1..] == u';
    EmptyArray(d);
    EmptyArray(d');
    if d.elements != [] {
      assert [CLOSE_BRACKET] + [] == [CLOSE_BRACKET];
      SameElements(d.elements, [], d'.elements, []);
    }
  }

  function ArrayInside(d: Doc): Text
    requires d.DArray?
  {
    (if d.elements == [] then d.inside else ElementsSource(d.elements)) + [CLOSE_BRACKET]
  }

  lemma EmptyArray(d: Doc)
    requires d.DArray? && WellFormed(d)
    ensures var u := SkipSpace(ArrayInside(d)); u != [] && (d.elements == [] <==> u[0] == CLOSE_BRACKET)
  {
    if d.elements == [] {
      SkipTo(d.inside, [CLOSE_BRACKET]);
    } else {
      ElementsStart(d.elements, [CLOSE_BRACKET]);
    }
  }

  /** What follows an element's white space. */
  function MoreElements(es: seq<Element>, r: Text): Text
    requires es != []
  {
    if |es| == 1 then [CLOSE_BRACKET] + r else [COMMA] + (ElementsSource(es[1..]) + ([CLOSE_BRACKET] + r))
  }

  lemma FirstElement(es: seq<Element>, r: Text)
    requires es != [] && ElementsWellFormed(es)
    ensures var e, more := es[0], MoreElements(es, r);
      && ElementsSource(es) + ([CLOSE_BRACKET] + r) == e.before + (Source(e.value) + (e.after + more))
      && SkipSpace(ElementsSource(es) + ([CLOSE_BRACKET] + r)) == Source(e.value) + (e.after + more)
      && SkipSpace(e.after + more) == more && EndsNumber(e.after + more)
  {
    var e, more := es[0], MoreElements(es, r);
    ElementsRegroup(e, if |es| == 1 then [] else ElementsSource(es[1..]), |es| == 1, r);
    SourceStart(e.value);
    SkipTo(e.before, Source(e.value) + (e.after + more));
    SpaceEndsNumber(e.after, more);
    SkipTo(e.after, more);
  }

  lemma ElementsRegroup(e: Element, tail: Text, last: bool, r: Text)
    requires last ==> tail == []
    ensures (e.before + (Source(e.value) + (e.after + if last then [] else [COMMA] + tail))) + ([CLOSE_BRACKET] + r)
         == e.before + (Source(e.value) + (e.after + if last then [CLOSE_BRACKET] + r else [COMMA] + (tail + ([CLOSE_BRACKET] + r))))
  {
  }

  lemma {:induction false} SameElements(es: seq<Element>, r: Text, es': seq<Element>, r': Text)
    requires es != [] && es' != [] && ElementsWellFormed(es) && ElementsWellFormed(es')
    requires ElementsSource(es) + ([CLOSE_BRACKET] + r) == ElementsSource(es') + ([CLOSE_BRACKET] + r')
    ensures ElementNumbers(es) == ElementNumbers(es')
    decreases es, 0
  {
    var more, more' := MoreElements(es, r), MoreElements(es', r');
    FirstElement(es, r);
    FirstElement(es', r');
    SameNumbers(es[0].value, es[0].after + more, es'[0].value, es'[0].after + more');
    assert more == more';
    if |es| == 1 {
      assert more'[0] == CLOSE_BRACKET;
      assert es[1..] == [] && es'[1..] == [];
    } else {
      assert more'[0] == COMMA;
      assert more[1..] == ElementsSource(es[1..]) + ([CLOSE_BRACKET] + r);
      assert more'[1..] == ElementsSource(es'[1..]) + ([CLOSE_BRACKET] + r');
      SameElements(es[1..], r, es'[1..], r');
    }
  }

  // ----- objects

  lemma {:induction false} ObjectNumbers(d: Doc, d': Doc)
    requires d.DObject? && d'.DObject? && WellFormed(d) && WellFormed(d') && Source(d) == Source(d')
    ensures Numbers(d) == Numbers(d')
    decreases d, 0
  {
    var u, u' := ObjectInside(d), ObjectInside(d');
    assert u == Source(d)[1..] == u';
    EmptyObject(d);
    EmptyObject(d');
    if d.members != [] {
      assert [CLOSE_BRACE] + [] == [CLOSE_BRACE];
      SameMembers(d.members, [], d'.members, []);
    }
  }

  function ObjectInside(d: Doc): Text
    requires d.DObject?
  {
    (if d.members == [] then d.inside else MembersSource(d.members)) + [CLOSE_BRACE]
  }

  lemma EmptyObject(d: Doc)
    requires d.DObject? && WellFormed(d)
    ensures var u := SkipSpace(ObjectInside(d)); u != [] && (d.members == [] <==> u[0] == CLOSE_BRACE)
  {
    if d.members == [] {
      SkipTo(d.inside, [CLOSE_BRACE]);
    } else {
      MembersStart(d.members, [CLOSE_BRACE]);
    }
  }

  function MoreMembers(ms: seq<Member>, r: Text): Text
    requires ms != []
  {
    if |ms| == 1 then [CLOSE_BRACE] + r else [COMMA] + (MembersSource(ms[1..]) + ([CLOSE_BRACE] + r))
  }

  /** What follows a member's key. */
  function ValueText(ms: seq<Member>, r: Text): Text
    requires ms != []
  {
    ms[0].beforeValue + (Source(ms[0].value) + (ms[0].after + MoreMembers(ms, r)))
  }

  lemma FirstMember(ms: seq<Member>, r: Text)
    requires ms != [] && MembersWellFormed(ms)
    ensures var m, value := ms[0], ValueText(ms, r);
      && SkipSpace(MembersSource(ms) + ([CLOSE_BRACE] + r)) == StringSource(m.key) + (m.afterKey + ([COLON] + value))
      && SkipSpace(m.afterKey + ([COLON] + value)) == [COLON] + value
  {
    var m, value := ms[0], ValueText(ms, r);
    MembersRegroup(m, if |ms| == 1 then [] else MembersSource(ms[1..]), |ms| == 1, r);
    KeyRegroup(m.before, StringSource(m.key), m.afterKey, value);
    SkipTo(m.before, StringSource(m.key) + (m.afterKey + ([COLON] + value)));
    SkipTo(m.afterKey, [COLON] + value);
  }

  lemma MembersRegroup(m: Member, tail: Text, last: bool, r: Text)
    requires last ==> tail == []
    ensures (KeySource(m) + (m.beforeValue + (Source(m.value) + (m.after + if last then [] else [COMMA] + tail)))) + ([CLOSE_BRACE] + r)
         == KeySource(m) + (m.beforeValue + (Source(m.value) + (m.after
              + if last then [CLOSE_BRACE] + r else [COMMA] + (tail + ([CLOSE_BRACE] + r)))))
  {
  }

  lemma FirstValue(ms: seq<Member>, r: Text)
    requires ms != [] && MembersWellFormed(ms)
    ensures var m, more := ms[0], MoreMembers(ms, r);
      && SkipSpace(ValueText(ms, r)) == Source(m.value) + (m.after + more)
      && SkipSpace(m.after + more) == more && EndsNumber(m.after + more)
  {
    var m, more := ms[0], MoreMembers(ms, r);
    SourceStart(m.value);
    SkipTo(m.beforeValue, Source(m.value) + (m.after + more));
    SpaceEndsNumber(m.after, more);
    SkipTo(m.after, more);
  }

  lemma SameKeys(ms: seq<Member>, r: Text, ms': seq<Member>, r': Text)
    requires ms != [] && ms' != [] && MembersWellFormed(ms) && MembersWellFormed(ms')
    requires MembersSource(ms) + ([CLOSE_BRACE] + r) == MembersSource(ms') + ([CLOSE_BRACE] + r')
    ensures ValueText(ms, r) == ValueText(ms', r')
  {
    var value, value' := ValueText(ms, r), ValueText(ms', r');
    FirstMember(ms, r);
    FirstMember(ms', r');
    ScanStringComplete(ms[0].key, ms[0].afterKey + ([COLON] + value));
    ScanStringComplete(ms'[0].key, ms'[0].afterKey + ([COLON] + value'));
    assert ([COLON] + value)[1..] == value && ([COLON] + value')[1..] == value';
  }

  lemma {:induction false} SameMembers(ms: seq<Member>, r: Text, ms': seq<Member>, r': Text)
    requires ms != [] && ms' != [] && MembersWellFormed(ms) && MembersWellFormed(ms')
    requires MembersSource(ms) + ([CLOSE_BRACE] + r) == MembersSource(ms') + ([CLOSE_BRACE] + r')
    ensures MemberNumbers(ms) == MemberNumbers(ms')
    decreases ms, 0
  {
    var more, more' := MoreMembers(ms, r), MoreMembers(ms', r');
    SameKeys(ms, r, ms', r');
    FirstValue(ms, r);
    FirstValue(ms', r');
    SameNumbers(ms[0].value, ms[0].after + more, ms'[0].value, ms'[0].after + more');
    assert more == more';
    if |ms| == 1 {
      assert more'[0] == CLOSE_BRACE;
      assert ms[1..] == [] && ms'[1..] == [];
    } else {
      assert more'[0] == COMMA;
      assert more[1..] == MembersSource(ms[1..]) + ([CLOSE_BRACE] + r);
      assert more'[1..] == MembersSource(ms'[1..]) + ([CLOSE_BRACE] + r');
      SameMembers(ms[1..], r, ms'[1..], r');
    }
  }

  // ----- main result

  /** All documents that write a text have the same numbers, in one order. */
  lemma NumbersAreOfTheText(s: Text, before: Text, d: Doc, after: Text, before': Text, d': Doc, after': Text)
    requires Writes(s, before, d, after) && Writes(s, before', d', after')
    ensures Numbers(d) == Numbers(d')
  {
    SourceStart(d);
    SourceStart(d');
    SkipTo(before, Source(d) + after);
    SkipTo(before', Source(d') + after');
    assert after + [] == after && after' + [] == after';
    SpaceEndsNumber(after, []);
    SpaceEndsNumber(after', []);
    SameNumbers(d, after, d', after');
  }
}
