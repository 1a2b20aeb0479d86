/** The recursive-descent body reader of a generated Playwright test, over a mutable index, and the
    grammar it accepts (`bajutsu/codegen/_playwright_dict_match.py`). */
module JsonReader {
  import opened JsonLexis

  // ----- values

  /** What the reader builds: an object is a `Map` in insertion order, and a number keeps its token. */
  datatype Json =
    | JTrue
    | JFalse
    | JNull
    | JString(text: Text)
    | JNumber(token: Text, isFloat: bool)
    | JArray(items: seq<Json>)
    | JObject(fields: seq<Field>)

  datatype Field = Field(key: Text, value: Json)

  /** `Map.set`: a known key keeps its position and takes the new value. */
  function SetField(fields: seq<Field>, key: Text, value: Json): seq<Field> {
    if fields == [] then [Field(key, value)]
    else if fields[0].key == key then [Field(key, value)] + fields[1..]
    else [fields[0]] + SetField(fields[1..], key, value)
  }

  function WordValue(w: Word): Json {
    match w
    case True => JTrue
    case False => JFalse
    case Null => JNull
    case NotANumber => JNumber(w.Spelling(), true)
    case Infinity => JNumber(w.Spelling(), true)
    case MinusInfinity => JNumber(w.Spelling(), true)
  }

  function NumberValue(n: Number): Json {
    JNumber(n.Source(), n.IsFloat())
  }

  // ----- the grammar: a document with its white space and spellings

  datatype Doc =
    | DWord(word: Word)
    | DNumber(number: Number)
    | DString(pieces: seq<Piece>)
    | DArray(inside: Text, elements: seq<Element>)
    | DObject(inside: Text, members: seq<Member>)

  /** White space, a value, white space. */
  datatype Element = Element(before: Text, value: Doc, after: Text)

  datatype Member = Member(before: Text, key: seq<Piece>, afterKey: Text, beforeValue: Text, value: Doc, after: Text)

  predicate WellFormed(d: Doc) {
    match d
    case DWord(_) => true
    case DNumber(n) => n.WellFormed()
    case DString(pieces) => AllWellFormed(pieces)
    case DArray(inside, es) => AllSpace(inside) && ElementsWellFormed(es)
    case DObject(inside, ms) => AllSpace(inside) && MembersWellFormed(ms)
  }

  predicate ElementsWellFormed(es: seq<Element>) {
    es != [] ==>
      && AllSpace(es[0].before) && WellFormed(es[0].value) && AllSpace(es[0].after)
      && ElementsWellFormed(es[1..])
  }

  predicate MembersWellFormed(ms: seq<Member>) {
    ms != [] ==>
      && AllSpace(ms[0].before) && AllWellFormed(ms[0].key) && AllSpace(ms[0].afterKey)
      && AllSpace(ms[0].beforeValue) && WellFormed(ms[0].value) && AllSpace(ms[0].after)
      && MembersWellFormed(ms[1..])
  }

  function Source(d: Doc): Text {
    match d
    case DWord(w) => w.Spelling()
    case DNumber(n) => n.Source()
    case DString(pieces) => StringSource(pieces)
    case DArray(inside, es) =>
      [OPEN_BRACKET] + ((if es == [] then inside else ElementsSource(es)) + [CLOSE_BRACKET])
    case DObject(inside, ms) =>
      [OPEN_BRACE] + ((if ms == [] then inside else MembersSource(ms)) + [CLOSE_BRACE])
  }

  function ElementsSource(es: seq<Element>): Text
    requires es != []
  {
    es[0].before + (Source(es[0].value) + (es[0].after +
      (if |es| == 1 then [] else [COMMA] + ElementsSource(es[1..]))))
  }

  function MembersSource(ms: seq<Member>): Text
    requires ms != []
  {
    KeySource(ms[0]) + (ms[0].beforeValue + (Source(ms[0].value) + (ms[0].after +
      (if |ms| == 1 then [] else [COMMA] + MembersSource(ms[1..])))))
  }

  /** A member up to its colon. */
  function KeySource(m: Member): Text {
    m.before + (StringSource(m.key) + (m.afterKey + [COLON]))
  }

  function Meaning(d: Doc): Json
    requires WellFormed(d)
  {
    match d
    case DWord(w) => WordValue(w)
    case DNumber(n) => NumberValue(n)
    case DString(pieces) => JString(PiecesMeaning(pieces))
    case DArray(_, es) => JArray(AddElements([], es))
    case DObject(_, ms) => JObject(AddMembers([], ms))
  }

  function AddElements(items: seq<Json>, es: seq<Element>): seq<Json>
    requires ElementsWellFormed(es)
    decreases es
  {
    if es == [] then items else AddElements(items + [Meaning(es[0].value)], es[1..])
  }

  function AddMembers(fields: seq<Field>, ms: seq<Member>): seq<Field>
    requires MembersWellFormed(ms)
    decreases ms
  {
    if ms == [] then fields
    else AddMembers(SetField(fields, PiecesMeaning(ms[0].key), Meaning(ms[0].value)), ms[1..])
  }

  /** The key-value pairs of an object in source order, repeated keys included. */
  function MemberFields(ms: seq<Member>): seq<Field>
    requires MembersWellFormed(ms)
  {
    if ms == [] then [] else [Field(PiecesMeaning(ms[0].key), Meaning(ms[0].value))] + MemberFields(ms[1..])
  }

  function SetAll(fields: seq<Field>, pairs: seq<Field>): seq<Field>
    decreases pairs
  {
    if pairs == [] then fields else SetAll(SetField(fields, pairs[0].key, pairs[0].value), pairs[1..])
  }

  ghost predicate DistinctKeys(fields: seq<Field>) {
    forall i, j :: 0 <= i < j < |fields| ==> fields[i].key != fields[j].key
  }

  lemma {:induction false} AddMembersIsSetAll(fields: seq<Field>, ms: seq<Member>)
    requires MembersWellFormed(ms)
    ensures AddMembers(fields, ms) == SetAll(fields, MemberFields(ms))
    decreases ms
  {
    if ms != [] {
      var f := Field(PiecesMeaning(ms[0].key), Meaning(ms[0].value));
      AddMembersIsSetAll(SetField(fields, f.key, f.value), ms[1..]);
      assert MemberFields(ms)[1..] == MemberFields(ms[1..]);
    }
  }

  // ----- the reader as a function of the input left

  /** A value and what follows it; leading white space is skipped. */
  function ReadValue(s: Text): (r: Scan<Json>)
    ensures r.Got? ==> |r.rest| < |s|
    decreases |s|, 0
  {
    var t := SkipSpace(s);
    if t != [] && t[0] == OPEN_BRACE then
      var u := SkipSpace(t[1..]);
      if u != [] && u[0] == CLOSE_BRACE then Got(JObject([]), u[1..]) else ReadMembers(u, [])
    else if t != [] && t[0] == OPEN_BRACKET then
      var u := SkipSpace(t[1..]);
      if u != [] && u[0] == CLOSE_BRACKET then Got(JArray([]), u[1..]) else ReadElements(u, [])
    else ReadScalar(t)
  }

  function ReadScalar(t: Text): (r: Scan<Json>)
    ensures r.Got? ==> |r.rest| < |t|
  {
    if t != [] && t[0] == QUOTE then
      match ScanString(t)
      case Fail => Fail
      case Got(text, rest) => Got(JString(text), rest)
    else
      match ScanWord(t)
      case Got(w, rest) =>
        ScanWordSound(t);
        Got(WordValue(w), rest)
      case Fail =>
        match ScanNumber(t)
        case Fail => Fail
        case Got(n, rest) =>
          ScanNumberSound(t);
          Got(NumberValue(n), rest)
  }

  /** The rest of an array from its next element on. */
  function ReadElements(s: Text, items: seq<Json>): (r: Scan<Json>)
    ensures r.Got? ==> |r.rest| < |s|
    decreases |s|, 1
  {
    match ReadValue(s)
    case Fail => Fail
    case Got(v, rest) =>
      var t := SkipSpace(rest);
      if t != [] && t[0] == CLOSE_BRACKET then Got(JArray(items + [v]), t[1..])
      else if t != [] && t[0] == COMMA then ReadElements(t[1..], items + [v])
      else Fail
  }

  /** A key and a colon. */
  function ReadKey(s: Text): (r: Scan<Text>)
    ensures r.Got? ==> |r.rest| < |s|
  {
    match ScanString(SkipSpace(s))
    case Fail => Fail
    case Got(key, afterKey) =>
      var colon := SkipSpace(afterKey);
      if colon == [] || colon[0] != COLON then Fail else Got(key, colon[1..])
  }

  /** A key, a colon and a value. */
  function ReadMember(s: Text): (r: Scan<Field>)
    ensures r.Got? ==> |r.rest| < |s|
    decreases |s|, 1
  {
    match ReadKey(s)
    case Fail => Fail
    case Got(key, value) =>
      match ReadValue(value)
      case Fail => Fail
      case Got(v, rest) => Got(Field(key, v), rest)
  }

  /** The rest of an object from its next member on. */
  function ReadMembers(s: Text, fields: seq<Field>): (r: Scan<Json>)
    ensures r.Got? ==> |r.rest| < |s|
    decreases |s|, 2
  {
    match ReadMember(s)
    case Fail => Fail
    case Got(f, rest) =>
      var t := SkipSpace(rest);
      if t != [] && t[0] == CLOSE_BRACE then Got(JObject(SetField(fields, f.key, f.value)), t[1..])
      else if t != [] && t[0] == COMMA then ReadMembers(t[1..], SetField(fields, f.key, f.value))
      else Fail
  }

  /** The whole text as one value, or nothing when it is not JSON. */
  function Read(s: Text): Option<Json> {
    match ReadValue(s)
    case Fail => None
    case Got(v, rest) => if SkipSpace(rest) == [] then Some(v) else None
  }

  // ----- the reader as it runs, over a shared index

  datatype Separator = Closes | Continues | Breaks

  class Reader {
    const src: Text
    var i: nat

    ghost predicate Valid()
      reads this
    {
      i <= |src|
    }

    ghost function Left(): Text
      requires Valid()
      reads this
    {
      src[i..]
    }

    constructor (src: Text)
      ensures Valid() && this.src == src && Left() == src
    {
      this.src := src;
      i := 0;
    }

    predicate At(u: Unit)
      reads this
    {
      i < |src| && src[i] == u
    }

    method Ws()
      requires Valid()
      modifies this`i
      ensures Valid() && i >= old(i) && Left() == SkipSpace(old(Left()))
    {
      while i < |src| && IsSpace(src[i])
        invariant Valid() && i >= old(i) && SkipSpace(Left()) == SkipSpace(old(Left()))
      {
        assert Left()[1..] == src[i + 1..];
        i := i + 1;
      }
    }

    /** Take what a sticky pattern matched: `rest` is what it left. */
    method Take(rest: Text, ghost taken: Text)
      requires Valid() && Left() == taken + rest
      modifies this`i
      ensures Valid() && i == old(i) + |taken| && Left() == rest
    {
      i := |src| - |rest|;
      assert src[i..] == src[old(i)..][|taken|..];
    }

    method Str() returns (r: Option<Text>)
      requires Valid()
      modifies this`i
      ensures Valid()
      ensures match ScanString(old(Left()))
              case Fail => r == None
              case Got(text, rest) => r == Some(text) && Left() == rest && i > old(i)
    {
      match ScanString(src[i..])
      case Fail => return None;
      case Got(text, rest) =>
        ghost var pieces := ScanStringSound(src[i..]);
        Take(rest, StringSource(pieces));
        return Some(text);
    }

    method Scalar() returns (r: Option<Json>)
      requires Valid()
      modifies this`i
      ensures Valid()
      ensures match ReadScalar(old(Left()))
              case Fail => r == None
              case Got(v, rest) => r == Some(v) && Left() == rest && i > old(i)
    {
      if At(QUOTE) {
        var s := Str();
        return if s == None then None else Some(JString(s.value));
      }
      match ScanWord(src[i..])
      case Got(w, rest) =>
        ScanWordSound(src[i..]);
        Take(rest, w.Spelling());
        return Some(WordValue(w));
      case Fail =>
        match ScanNumber(src[i..])
        case Fail => return None;
        case Got(n, rest) =>
          ScanNumberSound(src[i..]);
          Take(rest, n.Source());
          return Some(NumberValue(n));
    }

    /** What follows a member or an element, consumed. */
    method Separator(close: Unit) returns (c: Separator)
      requires Valid() && close != COMMA
      modifies this`i
      ensures Valid() && i >= old(i)
      ensures var t := SkipSpace(old(Left()));
              match c
              case Closes => t != [] && t[0] == close && Left() == t[1..]
              case Continues => t != [] && t[0] == COMMA && Left() == t[1..]
              case Breaks => t == [] || (t[0] != close && t[0] != COMMA)
    {
      Ws();
      if At(close) {
        i := i + 1;
        return Closes;
      }
      if !At(COMMA) {
        return Breaks;
      }
      i := i + 1;
      return Continues;
    }

    /** Read one value; a thrown error is `None`. */
    method Value() returns (r: Option<Json>)
      requires Valid()
      modifies this`i
      ensures Valid()
      ensures match ReadValue(old(Left()))
              case Fail => r == None
              case Got(v, rest) => r == Some(v) && Left() == rest && i > old(i)
      decreases |src| - i, 3
    {
      Ws();
      if At(OPEN_BRACE) {
        i := i + 1;
        Ws();
        r := ObjectBody();
      } else if At(OPEN_BRACKET) {
        i := i + 1;
        Ws();
        r := ArrayBody();
      } else {
        r := Scalar();
      }
    }

    method ObjectBody() returns (r: Option<Json>)
      requires Valid()
      modifies this`i
      ensures Valid()
      ensures match (if old(At(CLOSE_BRACE)) then Got(JObject([]), old(Left())[1..]) else ReadMembers(old(Left()), []))
              case Fail => r == None
              case Got(v, rest) => r == Some(v) && Left() == rest && i > old(i)
      decreases |src| - i, 5
    {
      var obj: seq<Field> := [];
      if At(CLOSE_BRACE) {
        i := i + 1;
        return Some(JObject(obj));
      }
      while true
        invariant Valid() && i >= old(i)
        invariant ReadMembers(old(Left()), []) == ReadMembers(Left(), obj)
        decreases |src| - i
      {
        var f := KeyAndValue();
        if f == None {
          return None;
        }
        obj := SetField(obj, f.value.key, f.value.value);
        var c := Separator(CLOSE_BRACE);
        if c == Closes {
          return Some(JObject(obj));
        }
        if c == Breaks {
          return None;
        }
      }
    }

    method ArrayBody() returns (r: Option<Json>)
      requires Valid()
      modifies this`i
      ensures Valid()
      ensures match (if old(At(CLOSE_BRACKET)) then Got(JArray([]), old(Left())[1..]) else ReadElements(old(Left()), []))
              case Fail => r == None
              case Got(v, rest) => r == Some(v) && Left() == rest && i > old(i)
      decreases |src| - i, 5
    {
      var arr: seq<Json> := [];
      if At(CLOSE_BRACKET) {
        i := i + 1;
        return Some(JArray(arr));
      }
      while true
        invariant Valid() && i >= old(i)
        invariant ReadElements(old(Left()), []) == ReadElements(Left(), arr)
        decreases |src| - i
      {
        var v := Value();
        if v == None {
          return None;
        }
        arr := arr + [v.value];
        var c := Separator(CLOSE_BRACKET);
        if c == Closes {
          return Some(JArray(arr));
        }
        if c == Breaks {
          return None;
        }
      }
    }

    /** The body of the object loop up to the value. */
    method KeyAndValue() returns (r: Option<Field>)
      requires Valid()
      modifies this`i
      ensures Valid()
      ensures match ReadMember(old(Left()))
              case Fail => r == None
              case Got(f, rest) => r == Some(f) && Left() == rest && i > old(i)
      decreases |src| - i, 4
    {
      var k := Key();
      if k == None {
        return None;
      }
      var v := Value();
      return if v == None then None else Some(Field(k.value, v.value));
    }

    /** A key and its colon. */
    method Key() returns (r: Option<Text>)
      requires Valid()
      modifies this`i
      ensures Valid()
      ensures match ReadKey(old(Left()))
              case Fail => r == None
              case Got(k, rest) => r == Some(k) && Left() == rest && i > old(i)
    {
      Ws();
      r := Str();
      if r != None {
        Ws();
        if !At(COLON) {
          return None;
        }
        i := i + 1;
        assert Left() == src[i - 1..][1..];
      }
    }
  }

  /** `bajutsuJson`: `None` stands for the thrown `SyntaxError`. */
  method ReadJson(src: Text) returns (r: Option<Json>)
    ensures r == Read(src)
  {
    var reader := new Reader(src);
    var v := reader.Value();
    if v == None {
      return None;
    }
    reader.Ws();
    return if reader.i == |src| then v else None;
  }
}
