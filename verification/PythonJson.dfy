/** The runner's side of a comparison: JSON values as `json.loads` builds them, and their text form
    (`json_text` of `bajutsu/common/assertions/dict_match.py`), beside what the generated test reads and writes. */
module PythonJson {
  import opened JsonLexis
  import opened JsonReader
  import opened FloatText
  import opened JsonText
  import JsonGrammar
  import JsonUnique

  type Float = d: Double | d.WellFormed() witness NaN

  datatype Py =
    | PyNone
    | PyBool(on: bool)
    | PyInt(number: int)
    | PyFloat(float: Float)
    | PyStr(text: Text)
    | PyList(items: seq<Py>)
    | PyDict(fields: seq<PyField>)

  /** An entry of a dictionary, which keeps the order of its keys. */
  datatype PyField = PyField(key: Text, value: Py)

  // ----- `str` and `repr` of numbers

  function IntText(n: int): Text {
    if n < 0 then [MINUS] + DecimalText(-n) else DecimalText(n)
  }

  /** `repr` of a float, by its shortest digits and the place of the point before, among or behind them: the exponent
      form where the point stands four or more zeros before the digits, or behind the seventeenth place. */
  function ReprText(minus: bool, digits: Text, point: int): Text
    requires digits != []
  {
    var sign := SignText(minus);
    if point <= -4 || point > 16 then
      sign + ([digits[0]] + (if |digits| == 1 then [] else [DOT] + digits[1..])) + ReprExponent(point - 1)
    else if point <= 0 then sign + ([ZERO, DOT] + (Zeros(-point) + digits))
    else if point < |digits| then sign + (digits[..point] + [DOT] + digits[point..])
    else sign + (digits + Zeros(point - |digits|) + [DOT, ZERO])
  }

  /** A sign and at least two digits. */
  function ReprExponent(e: int): Text {
    var size := if e < 0 then -e else e;
    [LOWER_E, if e < 0 then MINUS else PLUS] + (if size < 10 then [ZERO, ZERO + size] else DecimalText(size))
  }

  /** `repr`, and what `json.dumps` writes of the values JSON has no number for. */
  function PyFloatText(x: Float, dumped: bool): Text {
    match x
    case NaN => if dumped then Word.NotANumber.Spelling() else LOWER_NAN
    case Infinite(minus) => SignText(minus) + if dumped then Word.Infinity.Spelling() else LOWER_INF
    case Zero(minus) => ReprText(minus, [ZERO], 1)
    case Finite(minus, digits, exp) => ReprText(minus, digits, exp + 1)
  }

  lemma ExponentIsRepr(e: int)
    ensures ReprExponent(e) == ExponentOf(e).Source()
  {
    var size := if e < 0 then -e else e;
    if size < 10 {
      assert Zeros(1) + DecimalText(size) == [ZERO, ZERO + size];
    } else {
      DecimalRoundTrip(size / 10);
      assert |DecimalText(size)| >= 2;
    }
  }

  lemma Assoc(a: Text, b: Text, c: Text)
    ensures a + (b + c) == a + b + c
  {
  }

  /** The point is one place behind the first digit's power of ten. */
  lemma DigitsAreRepr(minus: bool, d: Text, e: int)
    requires d != []
    ensures ReprText(minus, d, e + 1) == DigitsText(minus, d, e)
  {
    var sign := SignText(minus);
    if e < -4 || e >= 16 {
      ExponentIsRepr(e);
      Assoc(sign, [d[0]], if |d| == 1 then [] else [DOT] + d[1..]);
    } else if e < 0 {
      Assoc(sign, [ZERO, DOT], Zeros(-e - 1) + d);
      Assoc(sign + [ZERO, DOT], Zeros(-e - 1), d);
    } else if |d| <= e + 1 {
      Assoc(sign, d + Zeros(e + 1 - |d|), [DOT, ZERO]);
      Assoc(sign, d, Zeros(e + 1 - |d|));
    } else {
      Assoc(sign, d[..e + 1] + [DOT], d[e + 1..]);
      Assoc(sign, d[..e + 1], [DOT]);
    }
  }

  lemma FloatsAgree(x: Float, nested: bool)
    ensures PyFloatText(x, nested) == DoubleText(x, nested)
  {
    match x
    case Zero(minus) =>
      DigitsAreRepr(minus, [ZERO], 0);
      assert [MINUS] + [ZERO] + [] + [DOT, ZERO] == [MINUS, ZERO, DOT, ZERO];
    case Finite(minus, digits, exp) => DigitsAreRepr(minus, digits, exp);
    case Infinite(minus) => assert [MINUS] + Word.Infinity.Spelling() == Word.MinusInfinity.Spelling();
    case NaN =>
  }

  // ----- `json.dumps(..., separators=(",", ":"), ensure_ascii=False)`

  /** Controls, the quote and the backslash are escaped, and nothing else. */
  function DumpUnit(u: Unit): Piece {
    if u == QUOTE || u == BACKSLASH then Escape(u)
    else if u == 0x0A then Escape(0x6E)
    else if u == 0x0D then Escape(0x72)
    else if u == 0x09 then Escape(0x74)
    else if u == 0x0C then Escape(0x66)
    else if u == 0x08 then Escape(0x62)
    else if u < 0x20 then HexPiece(u)
    else Plain(u)
  }

  function DumpUnits(s: Text): Text {
    if s == [] then [] else DumpUnit(s[0]).Source() + DumpUnits(s[1..])
  }

  function DumpString(s: Text): Text {
    [QUOTE] + DumpUnits(s) + [QUOTE]
  }

  function Dumps(v: Py): Text
    decreases v, 1
  {
    match v
    case PyNone => Word.Null.Spelling()
    case PyBool(on) => if on then Word.True.Spelling() else Word.False.Spelling()
    case PyInt(n) => IntText(n)
    case PyFloat(x) => PyFloatText(x, true)
    case PyStr(s) => DumpString(s)
    case PyList(items) => [OPEN_BRACKET] + (DumpItems(items) + [CLOSE_BRACKET])
    case PyDict(fields) => [OPEN_BRACE] + (DumpFields(fields) + [CLOSE_BRACE])
  }

  function DumpItems(items: seq<Py>): Text
    decreases items, 0
  {
    if items == [] then []
    else Dumps(items[0]) + (if |items| == 1 then [] else [COMMA] + DumpItems(items[1..]))
  }

  function DumpFields(fields: seq<PyField>): Text
    decreases fields, 0
  {
    if fields == [] then []
    else
      DumpString(fields[0].key)
      + ([COLON] + (Dumps(fields[0].value) + (if |fields| == 1 then [] else [COMMA] + DumpFields(fields[1..]))))
  }

  /** `json_text`: a list or a dictionary is dumped, a string is itself. */
  function PyText(v: Py): Text {
    match v
    case PyStr(s) => s
    case PyFloat(x) => PyFloatText(x, false)
    case _ => Dumps(v)
  }

  // ----- the value `json.loads` gives for what the generated reader reads

  function Signed(minus: bool, magnitude: int): int {
    if minus then -magnitude else magnitude
  }

  function IntOf(tok: Text): int
    requires IsIntegerToken(tok)
  {
    ScanNumberSound(tok);
    var n := ScanNumber(tok).value;
    Signed(n.minus, NatOf(n.whole))
  }

  function Loaded(v: Json, number: Text -> Double): Py
    requires Valid(v) && AllWellFormedDoubles(number)
    decreases v, 1
  {
    match v
    case JTrue => PyBool(true)
    case JFalse => PyBool(false)
    case JNull => PyNone
    case JString(s) => PyStr(s)
    case JNumber(tok, isFloat) => if isFloat then PyFloat(number(tok)) else PyInt(IntOf(tok))
    case JArray(items) => PyList(LoadedItems(items, number))
    case JObject(fields) => PyDict(LoadedFields(fields, number))
  }

  function LoadedItems(items: seq<Json>, number: Text -> Double): (r: seq<Py>)
    requires ItemsValid(items) && AllWellFormedDoubles(number)
    ensures |r| == |items|
    decreases items, 0
  {
    if items == [] then [] else [Loaded(items[0], number)] + LoadedItems(items[1..], number)
  }

  function LoadedFields(fields: seq<Field>, number: Text -> Double): (r: seq<PyField>)
    requires FieldsValid(fields) && AllWellFormedDoubles(number)
    ensures |r| == |fields|
    decreases fields, 0
  {
    if fields == [] then []
    else [PyField(fields[0].key, Loaded(fields[0].value, number))] + LoadedFields(fields[1..], number)
  }

  // ----- when the two text forms are one

  /** Every surrogate stands in a pair, the high half first. */
  predicate Paired(s: Text) {
    if s == [] then true
    else if |s| > 1 && IsHigh(s[0]) && IsLow(s[1]) then Paired(s[2..])
    else !IsHigh(s[0]) && !IsLow(s[0]) && Paired(s[1..])
  }

  /** A surrogate at `i` without its other half beside it. */
  predicate LoneAt(s: Text, i: int)
    requires 0 <= i < |s|
  {
    || (IsHigh(s[i]) && !(i + 1 < |s| && IsLow(s[i + 1])))
    || (IsLow(s[i]) && !(i > 0 && IsHigh(s[i - 1])))
  }

  lemma {:induction false} PairedIff(s: Text)
    ensures Paired(s) <==> forall i :: 0 <= i < |s| ==> !LoneAt(s, i)
    decreases |s|
  {
    if s == [] {
    } else if |s| > 1 && IsHigh(s[0]) && IsLow(s[1]) {
      PairedIff(s[2..]);
      assert !LoneAt(s, 0) && !LoneAt(s, 1);
      assert forall i :: 2 <= i < |s| ==> (LoneAt(s, i) <==> LoneAt(s[2..], i - 2));
      assert forall i :: 0 <= i < |s| - 2 ==> (LoneAt(s[2..], i) <==> LoneAt(s, i + 2));
    } else if IsHigh(s[0]) || IsLow(s[0]) {
      assert LoneAt(s, 0);
    } else {
      PairedIff(s[1..]);
      assert forall i :: 1 <= i < |s| ==> (LoneAt(s, i) <==> LoneAt(s[1..], i - 1));
      assert forall i :: 0 <= i < |s| - 1 ==> (LoneAt(s[1..], i) <==> LoneAt(s, i + 1));
    }
  }

  /** No nested string and no key holds a lone surrogate; a string that stands alone may. */
  predicate Clean(v: Json, nested: bool) {
    match v
    case JString(s) => nested ==> Paired(s)
    case JArray(items) => ItemsClean(items)
    case JObject(fields) => FieldsClean(fields)
    case _ => true
  }

  predicate ItemsClean(items: seq<Json>) {
    items != [] ==> Clean(items[0], true) && ItemsClean(items[1..])
  }

  predicate FieldsClean(fields: seq<Field>) {
    fields != [] ==> Paired(fields[0].key) && Clean(fields[0].value, true) && FieldsClean(fields[1..])
  }

  /** `a` is `b` if and only if `same`, and else longer. */
  predicate Compare(a: Text, b: Text, same: bool) {
    if same then a == b else |a| > |b|
  }

  lemma CompareConcat(a: Text, b: Text, same: bool, c: Text, d: Text, same': bool)
    requires Compare(a, b, same) && Compare(c, d, same')
    ensures Compare(a + c, b + d, same && same')
  {
  }

  lemma UnitCompares(u: Unit)
    ensures Compare(QuoteUnit(u).Source(), DumpUnit(u).Source(), !IsHigh(u) && !IsLow(u))
  {
  }

  lemma PairCompares(s: Text)
    requires |s| > 1 && IsHigh(s[0]) && IsLow(s[1])
    requires Compare(PiecesSource(QuotePieces(s[2..])), DumpUnits(s[2..]), Paired(s[2..]))
    ensures Compare(PiecesSource(QuotePieces(s)), DumpUnits(s), Paired(s))
  {
    PairSource(s);
    PairDumped(s);
    CompareConcat([s[1]], [s[1]], true, PiecesSource(QuotePieces(s[2..])), DumpUnits(s[2..]), Paired(s[2..]));
    CompareConcat([s[0]], [s[0]], true, [s[1]] + PiecesSource(QuotePieces(s[2..])), [s[1]] + DumpUnits(s[2..]), Paired(s[2..]));
  }

  lemma PairDumped(s: Text)
    requires |s| > 1 && IsHigh(s[0]) && IsLow(s[1])
    ensures DumpUnits(s) == [s[0]] + ([s[1]] + DumpUnits(s[2..])) && Paired(s) == Paired(s[2..])
  {
    var t := s[1..];
    assert t[0] == s[1] && t[1..] == s[2..];
    SurrogateDumped(s[0]);
    SurrogateDumped(t[0]);
    assert DumpUnits(t) == [s[1]] + DumpUnits(s[2..]);
  }

  lemma SurrogateDumped(u: Unit)
    requires IsHigh(u) || IsLow(u)
    ensures DumpUnit(u).Source() == [u]
  {
  }

  lemma {:induction false} QuotesCompare(s: Text)
    ensures Compare(PiecesSource(QuotePieces(s)), DumpUnits(s), Paired(s))
    decreases |s|
  {
    if s == [] {
    } else if |s| > 1 && IsHigh(s[0]) && IsLow(s[1]) {
      QuotesCompare(s[2..]);
      PairCompares(s);
    } else {
      QuotesCompare(s[1..]);
      UnitCompares(s[0]);
      var pieces := QuotePieces(s);
      assert pieces[1..] == QuotePieces(s[1..]);
      CompareConcat(QuoteUnit(s[0]).Source(), DumpUnit(s[0]).Source(), !IsHigh(s[0]) && !IsLow(s[0]),
        PiecesSource(QuotePieces(s[1..])), DumpUnits(s[1..]), Paired(s[1..]));
    }
  }

  lemma PairSource(s: Text)
    requires |s| > 1 && IsHigh(s[0]) && IsLow(s[1])
    ensures PiecesSource(QuotePieces(s)) == [s[0]] + ([s[1]] + PiecesSource(QuotePieces(s[2..])))
  {
    var rest := QuotePieces(s[2..]);
    var pieces := QuotePieces(s);
    assert pieces == [Plain(s[0]), Plain(s[1])] + rest;
    assert pieces[1..] == [Plain(s[1])] + rest && pieces[1..][1..] == rest;
  }

  lemma StringsCompare(s: Text)
    ensures Compare(StringSource(QuotePieces(s)), DumpString(s), Paired(s))
  {
    QuotesCompare(s);
    CompareConcat([QUOTE], [QUOTE], true, PiecesSource(QuotePieces(s)), DumpUnits(s), Paired(s));
    CompareConcat([QUOTE] + PiecesSource(QuotePieces(s)), [QUOTE] + DumpUnits(s), Paired(s), [QUOTE], [QUOTE], true);
  }

  lemma SignedText(minus: bool, m: nat)
    ensures IntText(Signed(minus, m)) == SignText(minus && m != 0) + DecimalText(m)
  {
    var digits := DecimalText(m);
    assert [] + digits == digits;
  }

  lemma IntegersAgree(tok: Text)
    requires IsIntegerToken(tok)
    ensures BigIntText(tok) == IntText(IntOf(tok))
  {
    ScanNumberSound(tok);
    var n := ScanNumber(tok).value;
    SignedText(n.minus, NatOf(n.whole));
  }

  lemma {:induction false} DumpsCompare(v: Json, number: Text -> Double)
    requires Valid(v) && AllWellFormedDoubles(number)
    ensures Compare(TextOf(v, true, number), Dumps(Loaded(v, number)), Clean(v, true))
    decreases v, 1
  {
    match v
    case JString(s) => StringsCompare(s);
    case JNumber(tok, isFloat) =>
      if isFloat {
        FloatsAgree(number(tok), true);
      } else {
        IntegersAgree(tok);
      }
    case JArray(items) =>
      ItemsCompare(items, number);
      Enclosed(OPEN_BRACKET, ItemsText(items, number), DumpItems(LoadedItems(items, number)), CLOSE_BRACKET, ItemsClean(items));
    case JObject(fields) =>
      FieldsCompare(fields, number);
      Enclosed(OPEN_BRACE, FieldsText(fields, number), DumpFields(LoadedFields(fields, number)), CLOSE_BRACE, FieldsClean(fields));
    case _ =>
  }

  lemma Enclosed(open: Unit, a: Text, b: Text, close: Unit, same: bool)
    requires Compare(a, b, same)
    ensures Compare([open] + (a + [close]), [open] + (b + [close]), same)
  {
  }

  lemma {:induction false} ItemsCompare(items: seq<Json>, number: Text -> Double)
    requires ItemsValid(items) && AllWellFormedDoubles(number)
    ensures Compare(ItemsText(items, number), DumpItems(LoadedItems(items, number)), ItemsClean(items))
    decreases items, 0
  {
    if items != [] {
      DumpsCompare(items[0], number);
      ItemsCompare(items[1..], number);
      var loaded := LoadedItems(items, number);
      assert loaded[0] == Loaded(items[0], number) && loaded[1..] == LoadedItems(items[1..], number);
      RestCompares(|items|, ItemsText(items[1..], number), DumpItems(loaded[1..]), ItemsClean(items[1..]));
      CompareConcat(TextOf(items[0], true, number), Dumps(loaded[0]), Clean(items[0], true),
        Rest(|items|, ItemsText(items[1..], number)), Rest(|items|, DumpItems(loaded[1..])), ItemsClean(items[1..]));
    }
  }

  /** What follows an element of a list of `n`. */
  function Rest(n: nat, text: Text): Text {
    if n == 1 then [] else [COMMA] + text
  }

  lemma RestCompares(n: nat, a: Text, b: Text, same: bool)
    requires Compare(a, b, same) && (n == 1 ==> same)
    ensures Compare(Rest(n, a), Rest(n, b), same)
  {
  }

  lemma {:induction false} FieldsCompare(fields: seq<Field>, number: Text -> Double)
    requires FieldsValid(fields) && AllWellFormedDoubles(number)
    ensures Compare(FieldsText(fields, number), DumpFields(LoadedFields(fields, number)), FieldsClean(fields))
    decreases fields, 0
  {
    if fields != [] {
      var f := fields[0];
      StringsCompare(f.key);
      DumpsCompare(f.value, number);
      FieldsCompare(fields[1..], number);
      var loaded := LoadedFields(fields, number);
      assert loaded[0] == PyField(f.key, Loaded(f.value, number)) && loaded[1..] == LoadedFields(fields[1..], number);
      var a, b := Rest(|fields|, FieldsText(fields[1..], number)), Rest(|fields|, DumpFields(loaded[1..]));
      RestCompares(|fields|, FieldsText(fields[1..], number), DumpFields(loaded[1..]), FieldsClean(fields[1..]));
      FieldCompares(f, number, a, b, FieldsClean(fields[1..]));
    }
  }

  lemma FieldCompares(f: Field, number: Text -> Double, a: Text, b: Text, same: bool)
    requires Valid(f.value) && AllWellFormedDoubles(number) && Compare(a, b, same)
    requires Compare(StringSource(QuotePieces(f.key)), DumpString(f.key), Paired(f.key))
    requires Compare(TextOf(f.value, true, number), Dumps(Loaded(f.value, number)), Clean(f.value, true))
    ensures Compare(StringSource(QuotePieces(f.key)) + ([COLON] + (TextOf(f.value, true, number) + a)),
                    DumpString(f.key) + ([COLON] + (Dumps(Loaded(f.value, number)) + b)),
                    Paired(f.key) && Clean(f.value, true) && same)
  {
    var x, y := TextOf(f.value, true, number), Dumps(Loaded(f.value, number));
    CompareConcat(x, y, Clean(f.value, true), a, b, same);
    CompareConcat([COLON], [COLON], true, x + a, y + b, Clean(f.value, true) && same);
    CompareConcat(StringSource(QuotePieces(f.key)), DumpString(f.key), Paired(f.key),
      [COLON] + (x + a), [COLON] + (y + b), Clean(f.value, true) && same);
  }

  /** The generated test and the runner compare by one text exactly where no nested string and no key holds a lone
      surrogate. */
  lemma TextsAgreeIff(v: Json, number: Text -> Double)
    requires Valid(v) && AllWellFormedDoubles(number)
    ensures TextOf(v, false, number) == PyText(Loaded(v, number)) <==> Clean(v, false)
  {
    match v
    case JNumber(tok, isFloat) =>
      if isFloat {
        FloatsAgree(number(tok), false);
      } else {
        IntegersAgree(tok);
      }
    case JArray(_) => DumpsCompare(v, number);
    case JObject(_) => DumpsCompare(v, number);
    case _ =>
  }

  // ----- `json.loads`

  /** The longest integer Python converts. */
  const MAX_INT_DIGITS := 4300

  /** No integer of a document is longer, of values under repeated keys neither. */
  predicate ShortIntegers(d: Doc) {
    forall n :: n in JsonUnique.Numbers(d) ==> n.IsFloat() || |n.whole| <= MAX_INT_DIGITS
  }

  /** `json.loads` gives `v` for `s`, by the grammar it takes. */
  ghost predicate Loads(s: Text, v: Py, number: Text -> Double)
    requires AllWellFormedDoubles(number)
  {
    exists before, d, after :: JsonGrammar.Writes(s, before, d, after) && ShortIntegers(d)
      && Valid(Meaning(d)) && v == Loaded(Meaning(d), number)
  }

  /** No integer of the text is too long, if it is a document. */
  ghost predicate AllShort(s: Text) {
    forall before, d, after :: JsonGrammar.Writes(s, before, d, after) ==> ShortIntegers(d)
  }

  /** It is enough to look at one document that the text writes. */
  lemma AllShortIff(s: Text, before: Text, d: Doc, after: Text)
    requires JsonGrammar.Writes(s, before, d, after)
    ensures AllShort(s) <==> ShortIntegers(d)
  {
    forall before', d', after' | JsonGrammar.Writes(s, before', d', after')
      ensures ShortIntegers(d') <==> ShortIntegers(d)
    {
      JsonUnique.NumbersAreOfTheText(s, before, d, after, before', d', after');
    }
  }

  lemma ReadIsValid(s: Text)
    requires Read(s).Some?
    ensures Valid(Read(s).value)
  {
    JsonGrammar.ReadIffWritten(s, Read(s).value);
    var before, d, after :| JsonGrammar.Writes(s, before, d, after) && Meaning(d) == Read(s).value;
    MeaningIsValid(d);
  }

  /** For every text: the runner reads what the generated test reads, but for a text with an integer too long for
      Python, which it refuses. */
  lemma LoadsIffRead(s: Text, v: Py, number: Text -> Double)
    requires AllWellFormedDoubles(number)
    ensures Read(s).Some? ==> Valid(Read(s).value)
    ensures Loads(s, v, number) <==> Read(s).Some? && AllShort(s) && v == Loaded(Read(s).value, number)
  {
    if Loads(s, v, number) {
      var before, d, after :| JsonGrammar.Writes(s, before, d, after) && ShortIntegers(d)
        && Valid(Meaning(d)) && v == Loaded(Meaning(d), number);
      JsonGrammar.WrittenIsRead(s, before, d, after);
      AllShortIff(s, before, d, after);
    }
    if Read(s).Some? {
      ReadIsValid(s);
      JsonGrammar.ReadIffWritten(s, Read(s).value);
      var before, d, after :| JsonGrammar.Writes(s, before, d, after) && Meaning(d) == Read(s).value;
      AllShortIff(s, before, d, after);
    }
  }

  /** The two readers take one text alike if and only if it has no integer too long. */
  lemma ReadersAgreeIff(s: Text, number: Text -> Double)
    requires AllWellFormedDoubles(number)
    ensures (Read(s).Some? <==> exists v :: Loads(s, v, number)) <==> AllShort(s)
  {
    if Read(s).Some? {
      ReadIsValid(s);
      LoadsIffRead(s, Loaded(Read(s).value, number), number);
    }
    forall v
      ensures Loads(s, v, number) ==> Read(s).Some? && AllShort(s)
    {
      LoadsIffRead(s, v, number);
    }
    if Read(s).None? {
      forall before, d, after
        ensures !JsonGrammar.Writes(s, before, d, after)
      {
        if JsonGrammar.Writes(s, before, d, after) {
          JsonGrammar.WrittenIsRead(s, before, d, after);
        }
      }
    }
  }

  function Ones(n: nat): (r: Text)
    ensures |r| == n && AllDigits(r) && forall i :: 0 <= i < n ==> r[i] == ZERO + 1
  {
    seq(n, _ => ZERO + 1)
  }

  /** A number the generated test reads and the runner does not. */
  lemma LongIntegerDiffers(number: Text -> Double)
    requires AllWellFormedDoubles(number)
    ensures exists s :: Read(s).Some? && forall v :: !Loads(s, v, number)
  {
    var s := LongInteger();
    forall v
      ensures !Loads(s, v, number)
    {
      LoadsIffRead(s, v, number);
    }
  }

  lemma LongInteger() returns (s: Text)
    ensures Read(s).Some? && !AllShort(s)
  {
    var n := Number(true, Ones(MAX_INT_DIGITS + 1), None, None);
    var d := DNumber(n);
    s := n.Source();
    assert s == [] + (Source(d) + []);
    JsonGrammar.WrittenIsRead(s, [], d, []);
    assert n in JsonUnique.Numbers(d) && !ShortIntegers(d);
    AllShortIff(s, [], d, []);
  }
}
