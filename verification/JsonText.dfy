/** The text form the generated matcher compares values by, and its round trip through the reader
    (`bajutsu/codegen/_playwright_dict_match.py`). */
module JsonText {
  import opened JsonLexis
  import opened JsonReader
  import opened FloatText
  import JsonGrammar

  // ----- `JSON.stringify` on a string

  predicate IsHigh(u: Unit) {
    0xD800 <= u <= 0xDBFF
  }

  predicate IsLow(u: Unit) {
    0xDC00 <= u <= 0xDFFF
  }

  function HexDigit(v: int): Unit
    requires 0 <= v < 16
  {
    if v < 10 then 0x30 + v else 0x61 + v - 10
  }

  function HexPiece(u: Unit): Piece {
    Hex(HexDigit(u / 0x1000), HexDigit(u / 0x100 % 16), HexDigit(u / 0x10 % 16), HexDigit(u % 16))
  }

  /** Controls and lone surrogates are escaped, as are the quote and the backslash. */
  function QuoteUnit(u: Unit): Piece {
    if u == QUOTE || u == BACKSLASH then Escape(u)
    else if u == 0x08 then Escape(0x62)
    else if u == 0x09 then Escape(0x74)
    else if u == 0x0A then Escape(0x6E)
    else if u == 0x0C then Escape(0x66)
    else if u == 0x0D then Escape(0x72)
    else if u < 0x20 || IsHigh(u) || IsLow(u) then HexPiece(u)
    else Plain(u)
  }

  function QuotePieces(s: Text): seq<Piece> {
    if s == [] then []
    else if |s| > 1 && IsHigh(s[0]) && IsLow(s[1]) then [Plain(s[0]), Plain(s[1])] + QuotePieces(s[2..])
    else [QuoteUnit(s[0])] + QuotePieces(s[1..])
  }

  lemma QuoteUnitMeaning(u: Unit)
    ensures QuoteUnit(u).WellFormed() && QuoteUnit(u).Meaning() == u
  {
    if QuoteUnit(u).Hex? {
      HexDigits(u);
    }
  }

  lemma HexDigits(u: Unit)
    ensures HexPiece(u).WellFormed() && HexPiece(u).Meaning() == u
  {
    FourDigits(u);
    DigitValue(u / 0x1000);
    DigitValue(u / 0x100 % 16);
    DigitValue(u / 0x10 % 16);
    DigitValue(u % 16);
  }

  lemma DigitValue(v: int)
    requires 0 <= v < 16
    ensures IsHex(HexDigit(v)) && HexValue(HexDigit(v)) == v
  {
  }

  lemma FourDigits(u: Unit)
    ensures 0 <= u / 0x1000 < 16
    ensures u == u / 0x1000 * 0x1000 + u / 0x100 % 16 * 0x100 + u / 0x10 % 16 * 0x10 + u % 16
  {
    var a := u / 0x10;
    var b := a / 0x10;
    var c := b / 0x10;
    assert u == 0x100 * b + (0x10 * (a % 0x10) + u % 0x10);
    assert u / 0x100 == b;
    assert u == 0x1000 * c + (0x100 * (b % 0x10) + 0x10 * (a % 0x10) + u % 0x10);
    assert u / 0x1000 == c;
  }

  lemma PiecesCons(p: Piece, ps: seq<Piece>)
    requires p.WellFormed() && AllWellFormed(ps)
    ensures AllWellFormed([p] + ps) && PiecesMeaning([p] + ps) == [p.Meaning()] + PiecesMeaning(ps)
  {
    assert ([p] + ps)[1..] == ps;
  }

  lemma {:induction false} QuotePiecesMeaning(s: Text)
    ensures AllWellFormed(QuotePieces(s)) && PiecesMeaning(QuotePieces(s)) == s
  {
    if s == [] {
    } else if |s| > 1 && IsHigh(s[0]) && IsLow(s[1]) {
      QuotePiecesMeaning(s[2..]);
      PairMeaning(s, QuotePieces(s[2..]));
    } else {
      QuoteUnitMeaning(s[0]);
      QuotePiecesMeaning(s[1..]);
      PiecesCons(QuoteUnit(s[0]), QuotePieces(s[1..]));
      assert s == [s[0]] + s[1..];
    }
  }

  lemma PairMeaning(s: Text, ps: seq<Piece>)
    requires |s| > 1 && IsHigh(s[0]) && IsLow(s[1]) && AllWellFormed(ps) && PiecesMeaning(ps) == s[2..]
    ensures AllWellFormed([Plain(s[0]), Plain(s[1])] + ps) && PiecesMeaning([Plain(s[0]), Plain(s[1])] + ps) == s
  {
    PiecesCons(Plain(s[1]), ps);
    PiecesCons(Plain(s[0]), [Plain(s[1])] + ps);
    assert [Plain(s[0]), Plain(s[1])] + ps == [Plain(s[0])] + ([Plain(s[1])] + ps);
    assert s == [s[0]] + ([s[1]] + s[2..]);
  }

  // ----- `bajutsuText`

  predicate IsIntegerToken(tok: Text) {
    ScanNumber(tok).Got? && ScanNumber(tok).rest == [] && !ScanNumber(tok).value.IsFloat()
  }

  /** A value the reader can build: no key twice, every number token of its kind. */
  predicate Valid(v: Json) {
    match v
    case JNumber(tok, isFloat) => if isFloat then IsFloatToken(tok) else IsIntegerToken(tok)
    case JArray(items) => ItemsValid(items)
    case JObject(fields) => FieldsValid(fields)
    case _ => true
  }

  predicate ItemsValid(items: seq<Json>) {
    items != [] ==> Valid(items[0]) && ItemsValid(items[1..])
  }

  predicate FieldsValid(fields: seq<Field>) {
    fields != [] ==>
      Valid(fields[0].value) && FieldsValid(fields[1..])
      && forall i :: 1 <= i < |fields| ==> fields[i].key != fields[0].key
  }

  /** `BigInt(token).toString()`. */
  function BigIntText(tok: Text): Text
    requires IsIntegerToken(tok)
  {
    ScanNumberSound(tok);
    var n := ScanNumber(tok).value;
    var magnitude := NatOf(n.whole);
    SignText(n.minus && magnitude != 0) + DecimalText(magnitude)
  }

  function NumberText(tok: Text, isFloat: bool, nested: bool, number: Text -> Double): Text
    requires Valid(JNumber(tok, isFloat)) && number(tok).WellFormed()
  {
    if isFloat then DoubleText(number(tok), nested) else BigIntText(tok)
  }

  function TextOf(v: Json, nested: bool, number: Text -> Double): Text
    requires Valid(v) && AllWellFormedDoubles(number)
  {
    match v
    case JTrue => Word.True.Spelling()
    case JFalse => Word.False.Spelling()
    case JNull => Word.Null.Spelling()
    case JString(s) => if nested then StringSource(QuotePieces(s)) else s
    case JNumber(tok, isFloat) => NumberText(tok, isFloat, nested, number)
    case JArray(items) => [OPEN_BRACKET] + (ItemsText(items, number) + [CLOSE_BRACKET])
    case JObject(fields) => [OPEN_BRACE] + (FieldsText(fields, number) + [CLOSE_BRACE])
  }

  /** The items joined with commas. */
  function ItemsText(items: seq<Json>, number: Text -> Double): Text
    requires ItemsValid(items) && AllWellFormedDoubles(number)
  {
    if items == [] then []
    else TextOf(items[0], true, number) + (if |items| == 1 then [] else [COMMA] + ItemsText(items[1..], number))
  }

  function FieldsText(fields: seq<Field>, number: Text -> Double): Text
    requires FieldsValid(fields) && AllWellFormedDoubles(number)
  {
    if fields == [] then []
    else
      StringSource(QuotePieces(fields[0].key))
      + ([COLON] + (TextOf(fields[0].value, true, number) + (if |fields| == 1 then [] else [COMMA] + FieldsText(fields[1..], number))))
  }

  // ----- the canonical form: the same value with every number token as it is written

  function Canon(v: Json, number: Text -> Double): Json
    requires Valid(v) && AllWellFormedDoubles(number)
  {
    match v
    case JNumber(tok, isFloat) => JNumber(NumberText(tok, isFloat, true, number), isFloat)
    case JArray(items) => JArray(CanonItems(items, number))
    case JObject(fields) => JObject(CanonFields(fields, number))
    case _ => v
  }

  function CanonItems(items: seq<Json>, number: Text -> Double): seq<Json>
    requires ItemsValid(items) && AllWellFormedDoubles(number)
  {
    if items == [] then [] else [Canon(items[0], number)] + CanonItems(items[1..], number)
  }

  function CanonFields(fields: seq<Field>, number: Text -> Double): (r: seq<Field>)
    requires FieldsValid(fields) && AllWellFormedDoubles(number)
    ensures |r| == |fields| && forall i :: 0 <= i < |r| ==> r[i].key == fields[i].key
  {
    if fields == [] then []
    else [Field(fields[0].key, Canon(fields[0].value, number))] + CanonFields(fields[1..], number)
  }

  // ----- the text is a document of the grammar

  function DocOf(v: Json, number: Text -> Double): Doc
    requires Valid(v) && AllWellFormedDoubles(number)
  {
    match v
    case JTrue => DWord(True)
    case JFalse => DWord(False)
    case JNull => DWord(Null)
    case JString(s) => DString(QuotePieces(s))
    case JNumber(tok, isFloat) =>
      var t := NumberText(tok, isFloat, true, number);
      if ScanWord(t).Got? then DWord(ScanWord(t).value)
      else if ScanNumber(t).Got? then DNumber(ScanNumber(t).value) else DWord(Null)
    case JArray(items) => DArray([], DocItems(items, number))
    case JObject(fields) => DObject([], DocFields(fields, number))
  }

  function DocItems(items: seq<Json>, number: Text -> Double): seq<Element>
    requires ItemsValid(items) && AllWellFormedDoubles(number)
  {
    if items == [] then [] else [Element([], DocOf(items[0], number), [])] + DocItems(items[1..], number)
  }

  function DocFields(fields: seq<Field>, number: Text -> Double): seq<Member>
    requires FieldsValid(fields) && AllWellFormedDoubles(number)
  {
    if fields == [] then []
    else
      [Member([], QuotePieces(fields[0].key), [], [], DocOf(fields[0].value, number), [])]
      + DocFields(fields[1..], number)
  }

  /** Integers keep their token, but for a minus before zero. */
  lemma BigIntTextIs(tok: Text)
    requires IsIntegerToken(tok)
    ensures BigIntText(tok) == if tok == [MINUS, ZERO] then [ZERO] else tok
    ensures IsIntegerToken(BigIntText(tok))
  {
    ScanNumberSound(tok);
    var n := ScanNumber(tok).value;
    assert tok == n.Source() + [] == n.Source();
    assert n.Magnitude() == n.whole;
    NatRoundTrip(n.whole);
    if n.whole[0] == ZERO {
      assert n.whole == [ZERO] && DecimalText(0) == [ZERO];
      var zero := Number(false, [ZERO], None, None);
      assert zero.Source() + [] == [ZERO];
      ScanNumberComplete(zero, []);
    }
  }

  /** A written number is a word or a number token, and says again what it is. */
  lemma NumberDoc(tok: Text, isFloat: bool, number: Text -> Double)
    requires Valid(JNumber(tok, isFloat)) && IsConversion(number)
    ensures var v := JNumber(tok, isFloat); var d := DocOf(v, number);
      && WellFormed(d) && Meaning(d) == Canon(v, number) && Source(d) == TextOf(v, true, number)
    ensures Valid(Canon(JNumber(tok, isFloat), number))
  {
    var t := NumberText(tok, isFloat, true, number);
    if isFloat {
      FloatTextReadsBack(number, tok);
    } else {
      BigIntTextIs(tok);
    }
    if t == NAN_TOKEN || t == INF_TOKEN || t == NEG_INF_TOKEN {
      var w := if t == NAN_TOKEN then NotANumber else if t == INF_TOKEN then Infinity else MinusInfinity;
      WordAlone(w, t);
      assert isFloat by { WordIsNotInteger(w); }
    } else {
      NumberAlone(t);
    }
  }

  lemma WordAlone(w: Word, t: Text)
    requires t == w.Spelling()
    ensures ScanWord(t) == Got(w, [])
  {
    assert t == w.Spelling() + [];
    ScanWordComplete(w, []);
  }

  lemma NumberAlone(t: Text)
    requires ScanNumber(t).Got? && ScanNumber(t).rest == []
    ensures ScanNumber(t).value.WellFormed() && ScanNumber(t).value.Source() == t && ScanWord(t) == Fail
  {
    ScanNumberSound(t);
    var n := ScanNumber(t).value;
    assert n.Source() + [] == n.Source();
    JsonGrammar.NoWordBeforeNumber(n, []);
  }

  lemma WordIsNotInteger(w: Word)
    requires w == NotANumber || w == Infinity || w == MinusInfinity
    ensures !IsIntegerToken(w.Spelling())
  {
  }

  lemma {:induction false} DocOfText(v: Json, number: Text -> Double)
    requires Valid(v) && IsConversion(number)
    ensures Source(DocOf(v, number)) == TextOf(v, true, number)
    decreases v, 1
  {
    match v
    case JNumber(tok, isFloat) => NumberDoc(tok, isFloat, number);
    case JArray(items) => DocItemsText(items, number);
    case JObject(fields) => DocFieldsText(fields, number);
    case _ =>
  }

  lemma {:induction false} DocItemsText(items: seq<Json>, number: Text -> Double)
    requires ItemsValid(items) && IsConversion(number)
    ensures DocItems(items, number) == [] <==> items == []
    ensures items != [] ==> ElementsSource(DocItems(items, number)) == ItemsText(items, number)
    decreases items, 0
  {
    if items != [] {
      var es := DocItems(items, number);
      DocOfText(items[0], number);
      DocItemsText(items[1..], number);
      assert es[1..] == DocItems(items[1..], number);
      NoSpace(Source(es[0].value), if |es| == 1 then [] else [COMMA] + ElementsSource(es[1..]));
    }
  }

  lemma {:induction false} DocFieldsText(fields: seq<Field>, number: Text -> Double)
    requires FieldsValid(fields) && IsConversion(number)
    ensures DocFields(fields, number) == [] <==> fields == []
    ensures fields != [] ==> MembersSource(DocFields(fields, number)) == FieldsText(fields, number)
    decreases fields, 0
  {
    if fields != [] {
      var ms := DocFields(fields, number);
      DocOfText(fields[0].value, number);
      DocFieldsText(fields[1..], number);
      assert ms[1..] == DocFields(fields[1..], number);
      var value := Source(ms[0].value) + (if |ms| == 1 then [] else [COMMA] + MembersSource(ms[1..]));
      NoSpace(Source(ms[0].value), if |ms| == 1 then [] else [COMMA] + MembersSource(ms[1..]));
      KeyNoSpace(StringSource(ms[0].key), value);
    }
  }

  lemma NoSpace(a: Text, b: Text)
    ensures [] + (a + ([] + b)) == a + b
  {
  }

  lemma KeyNoSpace(key: Text, value: Text)
    ensures ([] + (key + ([] + [COLON]))) + value == key + ([COLON] + value)
  {
  }

  lemma ConsElement(d: Doc, tail: seq<Element>, items: seq<Json>)
    requires WellFormed(d) && ElementsWellFormed(tail)
    ensures var es := [Element([], d, [])] + tail;
            ElementsWellFormed(es) && AddElements(items, es) == AddElements(items + [Meaning(d)], tail)
  {
    var es := [Element([], d, [])] + tail;
    assert es[1..] == tail;
  }

  lemma {:induction false} DocOfMeaning(v: Json, number: Text -> Double)
    requires Valid(v) && IsConversion(number)
    ensures WellFormed(DocOf(v, number)) && Meaning(DocOf(v, number)) == Canon(v, number)
    decreases v, 1
  {
    match v
    case JString(s) => QuotePiecesMeaning(s);
    case JNumber(tok, isFloat) => NumberDoc(tok, isFloat, number);
    case JArray(items) => DocItemsMeaning(items, [], number);
    case JObject(fields) =>
      DocFieldsMeaning(fields, number);
      AddMembersIsSetAll([], DocFields(fields, number));
      CanonFieldsValid(fields, number);
      SetAllDistinct([], CanonFields(fields, number));
    case _ =>
  }

  lemma {:induction false} DocItemsMeaning(items: seq<Json>, before: seq<Json>, number: Text -> Double)
    requires ItemsValid(items) && IsConversion(number)
    ensures ElementsWellFormed(DocItems(items, number))
    ensures AddElements(before, DocItems(items, number)) == before + CanonItems(items, number)
    decreases items, 0
  {
    if items != [] {
      var head := Canon(items[0], number);
      DocOfMeaning(items[0], number);
      DocItemsMeaning(items[1..], before + [head], number);
      ConsElement(DocOf(items[0], number), DocItems(items[1..], number), before);
      OneMore(before, head, CanonItems(items[1..], number));
    }
  }

  lemma OneMore<T>(a: seq<T>, x: T, b: seq<T>)
    ensures a + ([x] + b) == a + [x] + b
  {
  }

  lemma {:induction false} DocFieldsMeaning(fields: seq<Field>, number: Text -> Double)
    requires FieldsValid(fields) && IsConversion(number)
    ensures MembersWellFormed(DocFields(fields, number))
    ensures MemberFields(DocFields(fields, number)) == CanonFields(fields, number)
    decreases fields, 0
  {
    if fields != [] {
      QuotePiecesMeaning(fields[0].key);
      DocOfMeaning(fields[0].value, number);
      DocFieldsMeaning(fields[1..], number);
      assert DocFields(fields, number)[1..] == DocFields(fields[1..], number);
    }
  }

  lemma {:induction false} CanonFieldsValid(fields: seq<Field>, number: Text -> Double)
    requires FieldsValid(fields) && AllWellFormedDoubles(number)
    ensures DistinctKeys(CanonFields(fields, number))
  {
    if fields != [] {
      CanonFieldsValid(fields[1..], number);
    }
  }

  lemma {:induction false} SetAllDistinct(before: seq<Field>, fields: seq<Field>)
    requires DistinctKeys(before + fields)
    ensures SetAll(before, fields) == before + fields
    decreases fields
  {
    if fields == [] {
      assert before + fields == before;
    } else {
      assert before + [fields[0]] + fields[1..] == before + fields;
      assert (before + fields)[|before|] == fields[0];
      assert forall i :: 0 <= i < |before| ==> (before + fields)[i] == before[i];
      SetNewField(before, fields[0].key, fields[0].value);
      SetAllDistinct(before + [fields[0]], fields[1..]);
    }
  }

  lemma {:induction false} SetNewField(fields: seq<Field>, key: Text, value: Json)
    requires forall i :: 0 <= i < |fields| ==> fields[i].key != key
    ensures SetField(fields, key, value) == fields + [Field(key, value)]
  {
    if fields != [] {
      SetNewField(fields[1..], key, value);
    }
  }

  // ----- main results

  /** Reading a value's nested text gives the value back in canonical form: the keys in order, and
      each number still an integer or still a float. */
  lemma TextReadsBack(v: Json, number: Text -> Double)
    requires Valid(v) && IsConversion(number)
    ensures Read(TextOf(v, true, number)) == Some(Canon(v, number))
  {
    DocOfText(v, number);
    DocOfMeaning(v, number);
    var d := DocOf(v, number);
    assert Source(d) == [] + (Source(d) + []);
    JsonGrammar.WrittenIsRead(TextOf(v, true, number), [], d, []);
  }

  /** The canonical form is valid, writes the same text, and is its own canonical form. */
  lemma {:induction false} CanonIsStable(v: Json, number: Text -> Double)
    requires Valid(v) && IsConversion(number)
    ensures Valid(Canon(v, number))
    ensures TextOf(Canon(v, number), true, number) == TextOf(v, true, number)
    ensures Canon(Canon(v, number), number) == Canon(v, number)
    decreases v, 1
  {
    match v
    case JNumber(tok, isFloat) =>
      NumberDoc(tok, isFloat, number);
      if isFloat {
        FloatTextReadsBack(number, tok);
      } else {
        BigIntTextIs(tok);
        BigIntTextIs(BigIntText(tok));
      }
    case JArray(items) => CanonItemsStable(items, number);
    case JObject(fields) => CanonFieldsStable(fields, number);
    case _ =>
  }

  lemma {:induction false} CanonItemsStable(items: seq<Json>, number: Text -> Double)
    requires ItemsValid(items) && IsConversion(number)
    ensures ItemsValid(CanonItems(items, number))
    ensures ItemsText(CanonItems(items, number), number) == ItemsText(items, number)
    ensures CanonItems(CanonItems(items, number), number) == CanonItems(items, number)
    decreases items, 0
  {
    if items != [] {
      CanonIsStable(items[0], number);
      CanonItemsStable(items[1..], number);
      assert CanonItems(items, number)[1..] == CanonItems(items[1..], number);
      assert |items| == 1 <==> CanonItems(items[1..], number) == [];
    }
  }

  lemma {:induction false} CanonFieldsStable(fields: seq<Field>, number: Text -> Double)
    requires FieldsValid(fields) && IsConversion(number)
    ensures FieldsValid(CanonFields(fields, number))
    ensures FieldsText(CanonFields(fields, number), number) == FieldsText(fields, number)
    ensures CanonFields(CanonFields(fields, number), number) == CanonFields(fields, number)
    decreases fields, 0
  {
    if fields != [] {
      CanonIsStable(fields[0].value, number);
      CanonFieldsStable(fields[1..], number);
      assert CanonFields(fields, number)[1..] == CanonFields(fields[1..], number);
      assert |fields| == 1 <==> CanonFields(fields[1..], number) == [];
    }
  }

  /** Two values have one nested text exactly when they have one canonical form. */
  lemma SameTextIffSameCanon(v: Json, w: Json, number: Text -> Double)
    requires Valid(v) && Valid(w) && IsConversion(number)
    ensures TextOf(v, true, number) == TextOf(w, true, number) <==> Canon(v, number) == Canon(w, number)
  {
    TextReadsBack(v, number);
    TextReadsBack(w, number);
    CanonIsStable(v, number);
    CanonIsStable(w, number);
  }

  // ----- whatever was read can be written

  lemma {:induction false} MeaningIsValid(d: Doc)
    requires WellFormed(d)
    ensures Valid(Meaning(d))
    decreases d, 1
  {
    match d
    case DNumber(n) =>
      ScanNumberComplete(n, []);
      assert n.Source() + [] == n.Source();
    case DArray(_, es) => ElementsAreValid(es, []);
    case DObject(_, ms) => MembersAreValid(ms, []);
    case _ =>
  }

  lemma {:induction false} ElementsAreValid(es: seq<Element>, items: seq<Json>)
    requires ElementsWellFormed(es) && ItemsValid(items)
    ensures ItemsValid(AddElements(items, es))
    decreases es, 0
  {
    if es != [] {
      MeaningIsValid(es[0].value);
      AppendItem(items, Meaning(es[0].value));
      ElementsAreValid(es[1..], items + [Meaning(es[0].value)]);
    }
  }

  lemma {:induction false} MembersAreValid(ms: seq<Member>, fields: seq<Field>)
    requires MembersWellFormed(ms) && FieldsValid(fields)
    ensures FieldsValid(AddMembers(fields, ms))
    decreases ms, 0
  {
    if ms != [] {
      MeaningIsValid(ms[0].value);
      var key, value := PiecesMeaning(ms[0].key), Meaning(ms[0].value);
      SetFieldValid(fields, key, value);
      MembersAreValid(ms[1..], SetField(fields, key, value));
    }
  }

  lemma {:induction false} AppendItem(items: seq<Json>, v: Json)
    requires ItemsValid(items) && Valid(v)
    ensures ItemsValid(items + [v])
  {
    if items != [] {
      AppendItem(items[1..], v);
      assert (items + [v])[1..] == items[1..] + [v];
    }
  }

  lemma {:induction false} SetFieldValid(fields: seq<Field>, key: Text, value: Json)
    requires FieldsValid(fields) && Valid(value)
    ensures FieldsValid(SetField(fields, key, value))
    ensures forall f :: f in SetField(fields, key, value) ==> f.key == key || exists g :: g in fields && g.key == f.key
  {
    if fields != [] && fields[0].key != key {
      SetFieldValid(fields[1..], key, value);
      var r := SetField(fields, key, value);
      assert r[1..] == SetField(fields[1..], key, value);
      forall i | 1 <= i < |r|
        ensures r[i].key != r[0].key
      {
        assert r[i] in r[1..];
      }
    } else if fields != [] {
      var r := SetField(fields, key, value);
      assert r[1..] == fields[1..];
    }
  }

  /** Printing what was read and reading it again gives the canonical form of the first reading, and
      from then on printing and reading change nothing. */
  lemma PrintingIsStable(s: Text, number: Text -> Double)
    requires Read(s).Some? && IsConversion(number)
    ensures Valid(Read(s).value)
    ensures var printed := TextOf(Read(s).value, true, number);
      && Read(printed) == Some(Canon(Read(s).value, number))
      && Valid(Read(printed).value)
      && TextOf(Read(printed).value, true, number) == printed
  {
    JsonGrammar.ReadIffWritten(s, Read(s).value);
    var before, d, after :| JsonGrammar.Writes(s, before, d, after) && Meaning(d) == Read(s).value;
    MeaningIsValid(d);
    TextReadsBack(Read(s).value, number);
    CanonIsStable(Read(s).value, number);
  }
}
