/** The lexical half of the body reader a generated Playwright test carries
    (`bajutsu/codegen/_playwright_dict_match.py`): white space, strings, numbers and literal words,
    each as a scanner over UTF-16 code units and as the grammar of RFC 8259 it recognizes. */
module JsonLexis {

  /** A UTF-16 code unit; a JavaScript string is a sequence of them, lone surrogates included. */
  type Unit = u: int | 0 <= u < 0x10000
  type Text = seq<Unit>

  datatype Option<+T> = None | Some(value: T)

  /** A scan that failed, or its value and what is left of the input. */
  datatype Scan<+T> = Fail | Got(value: T, rest: Text)

  const QUOTE: Unit := 0x22
  const BACKSLASH: Unit := 0x5C
  const SLASH: Unit := 0x2F
  const COMMA: Unit := 0x2C
  const COLON: Unit := 0x3A
  const DOT: Unit := 0x2E
  const PLUS: Unit := 0x2B
  const MINUS: Unit := 0x2D
  const ZERO: Unit := 0x30
  const LOWER_E: Unit := 0x65
  const UPPER_E: Unit := 0x45
  const LOWER_U: Unit := 0x75
  const OPEN_BRACKET: Unit := 0x5B
  const CLOSE_BRACKET: Unit := 0x5D
  const OPEN_BRACE: Unit := 0x7B
  const CLOSE_BRACE: Unit := 0x7D

  predicate StartsWith(s: Text, prefix: Text) {
    |prefix| <= |s| && s[..|prefix|] == prefix
  }

  // ----- white space

  predicate IsSpace(u: Unit) {
    u == 0x20 || u == 0x09 || u == 0x0A || u == 0x0D
  }

  /** Space, horizontal tab, line feed, carriage return. */
  predicate AllSpace(s: Text) {
    forall i :: 0 <= i < |s| ==> s[i] == 0x20 || s[i] == 0x09 || s[i] == 0x0A || s[i] == 0x0D
  }

  function SkipSpace(s: Text): (r: Text)
    ensures |r| <= |s|
    ensures r != [] ==> !IsSpace(r[0])
  {
    if s != [] && IsSpace(s[0]) then SkipSpace(s[1..]) else s
  }

  lemma {:induction false} SkipSpaceOver(space: Text, rest: Text)
    requires AllSpace(space)
    ensures SkipSpace(space + rest) == SkipSpace(rest)
  {
    if space == [] {
      assert space + rest == rest;
    } else {
      assert (space + rest)[1..] == space[1..] + rest;
      SkipSpaceOver(space[1..], rest);
    }
  }

  lemma {:induction false} SkippedIsSpace(s: Text) returns (space: Text)
    ensures AllSpace(space) && s == space + SkipSpace(s)
  {
    if s != [] && IsSpace(s[0]) {
      space := SkippedIsSpace(s[1..]);
      space := [s[0]] + space;
      assert s == [s[0]] + s[1..];
    } else {
      space := [];
    }
  }

  // ----- literal words

  datatype Word = True | False | Null | NotANumber | Infinity | MinusInfinity {
    function Spelling(): Text {
      match this
      case True => [0x74, 0x72, 0x75, 0x65]
      case False => [0x66, 0x61, 0x6C, 0x73, 0x65]
      case Null => [0x6E, 0x75, 0x6C, 0x6C]
      case NotANumber => [0x4E, 0x61, 0x4E]
      case Infinity => [0x49, 0x6E, 0x66, 0x69, 0x6E, 0x69, 0x74, 0x79]
      case MinusInfinity => [0x2D, 0x49, 0x6E, 0x66, 0x69, 0x6E, 0x69, 0x74, 0x79]
    }
  }

  function WordIf(w: Word, s: Text): Scan<Word> {
    if StartsWith(s, w.Spelling()) then Got(w, s[|w.Spelling()|..]) else Fail
  }

  /** The words in the order the reader tries them. */
  function ScanWord(s: Text): Scan<Word> {
    if WordIf(True, s).Got? then WordIf(True, s)
    else if WordIf(False, s).Got? then WordIf(False, s)
    else if WordIf(Null, s).Got? then WordIf(Null, s)
    else if WordIf(NotANumber, s).Got? then WordIf(NotANumber, s)
    else if WordIf(Infinity, s).Got? then WordIf(Infinity, s)
    else WordIf(MinusInfinity, s)
  }

  lemma ScanWordComplete(w: Word, rest: Text)
    ensures ScanWord(w.Spelling() + rest) == Got(w, rest)
  {
    var s := w.Spelling() + rest;
    assert s[..|w.Spelling()|] == w.Spelling() && s[|w.Spelling()|..] == rest;
    forall v: Word | v != w
      ensures WordIf(v, s) == Fail
    {
      StartsWithHead(s, v.Spelling());
    }
  }

  lemma StartsWithHead(s: Text, prefix: Text)
    requires s != [] && prefix != []
    ensures StartsWith(s, prefix) ==> s[0] == prefix[0]
    ensures StartsWith(s, prefix) && |prefix| > 1 ==> s[1] == prefix[1]
  {
    assert StartsWith(s, prefix) ==> s == s[..|prefix|] + s[|prefix|..];
  }

  lemma ScanWordSound(s: Text)
    requires ScanWord(s).Got?
    ensures s == ScanWord(s).value.Spelling() + ScanWord(s).rest
  {
    forall w | WordIf(w, s).Got?
      ensures s == w.Spelling() + WordIf(w, s).rest
    {
      assert s == s[..|w.Spelling()|] + s[|w.Spelling()|..];
    }
  }

  // ----- strings

  predicate IsDigit(u: Unit) {
    0x30 <= u <= 0x39
  }

  predicate IsHex(u: Unit) {
    IsDigit(u) || 0x41 <= u <= 0x46 || 0x61 <= u <= 0x66
  }

  function HexValue(u: Unit): (v: int)
    requires IsHex(u)
    ensures 0 <= v < 16
  {
    if IsDigit(u) then u - 0x30 else if u < 0x61 then u - 0x41 + 10 else u - 0x61 + 10
  }

  /** One source-level element of a string literal. */
  datatype Piece = Plain(unit: Unit) | Escape(letter: Unit) | Hex(h0: Unit, h1: Unit, h2: Unit, h3: Unit) {

    predicate WellFormed() {
      match this
      case Plain(u) => u != QUOTE && u != BACKSLASH && u >= 0x20
      case Escape(c) => IsEscapeLetter(c)
      case Hex(a, b, c, d) => IsHex(a) && IsHex(b) && IsHex(c) && IsHex(d)
    }

    function Source(): Text {
      match this
      case Plain(u) => [u]
      case Escape(c) => [BACKSLASH, c]
      case Hex(a, b, c, d) => [BACKSLASH, LOWER_U, a, b, c, d]
    }

    function Meaning(): Unit
      requires WellFormed()
    {
      match this
      case Plain(u) => u
      case Escape(c) => EscapeMeaning(c)
      case Hex(a, b, c, d) => HexValue(a) * 0x1000 + HexValue(b) * 0x100 + HexValue(c) * 0x10 + HexValue(d)
    }
  }

  /** `"`, `\`, `/`, `b`, `f`, `n`, `r`, `t`. */
  predicate IsEscapeLetter(c: Unit) {
    c == QUOTE || c == BACKSLASH || c == SLASH || c == 0x62 || c == 0x66 || c == 0x6E || c == 0x72 || c == 0x74
  }

  function EscapeMeaning(c: Unit): Unit
    requires IsEscapeLetter(c)
  {
    if c == 0x62 then 0x08 else if c == 0x66 then 0x0C else if c == 0x6E then 0x0A
    else if c == 0x72 then 0x0D else if c == 0x74 then 0x09 else c
  }

  predicate AllWellFormed(pieces: seq<Piece>) {
    forall i :: 0 <= i < |pieces| ==> pieces[i].WellFormed()
  }

  function PiecesSource(pieces: seq<Piece>): Text {
    if pieces == [] then [] else pieces[0].Source() + PiecesSource(pieces[1..])
  }

  function PiecesMeaning(pieces: seq<Piece>): Text
    requires AllWellFormed(pieces)
  {
    if pieces == [] then [] else [pieces[0].Meaning()] + PiecesMeaning(pieces[1..])
  }

  function StringSource(pieces: seq<Piece>): Text {
    [QUOTE] + PiecesSource(pieces) + [QUOTE]
  }

  /** The piece a string body starts with, if it starts with one. */
  function ScanPiece(s: Text): Scan<Piece> {
    if s == [] || s[0] == QUOTE then Fail
    else if s[0] == BACKSLASH then
      if |s| >= 2 && IsEscapeLetter(s[1]) then Got(Escape(s[1]), s[2..])
      else if |s| >= 6 && s[1] == LOWER_U && IsHex(s[2]) && IsHex(s[3]) && IsHex(s[4]) && IsHex(s[5])
        then Got(Hex(s[2], s[3], s[4], s[5]), s[6..])
      else Fail
    else if s[0] < 0x20 then Fail
    else Got(Plain(s[0]), s[1..])
  }

  lemma ScanPieceComplete(p: Piece, rest: Text)
    requires p.WellFormed()
    ensures ScanPiece(p.Source() + rest) == Got(p, rest)
  {
  }

  lemma ScanPieceSound(s: Text)
    requires ScanPiece(s).Got?
    ensures ScanPiece(s).value.WellFormed()
    ensures s == ScanPiece(s).value.Source() + ScanPiece(s).rest
    ensures |ScanPiece(s).rest| < |s|
  {
  }

  /** A string's value from just after its opening quote, past its closing one: the sticky string
      pattern followed by `JSON.parse` of what it matched. */
  function ScanBody(s: Text): (r: Scan<Text>)
    ensures r.Got? ==> |r.rest| < |s|
    decreases |s|
  {
    if s != [] && s[0] == QUOTE then Got([], s[1..])
    else match ScanPiece(s)
      case Fail => Fail
      case Got(p, rest) =>
        ScanPieceSound(s);
        match ScanBody(rest)
        case Fail => Fail
        case Got(tail, end) => Got([p.Meaning()] + tail, end)
  }

  function ScanString(s: Text): (r: Scan<Text>)
    ensures r.Got? ==> |r.rest| < |s|
  {
    if s != [] && s[0] == QUOTE then ScanBody(s[1..]) else Fail
  }

  lemma {:induction false} ScanBodyComplete(pieces: seq<Piece>, rest: Text)
    requires AllWellFormed(pieces)
    ensures ScanBody(PiecesSource(pieces) + [QUOTE] + rest) == Got(PiecesMeaning(pieces), rest)
  {
    if pieces == [] {
      assert PiecesSource(pieces) + [QUOTE] + rest == [QUOTE] + rest;
    } else {
      var tail := PiecesSource(pieces[1..]) + [QUOTE] + rest;
      assert PiecesSource(pieces) + [QUOTE] + rest == pieces[0].Source() + tail;
      ScanPieceComplete(pieces[0], tail);
      assert pieces[0].Source()[0] != QUOTE;
      ScanBodyComplete(pieces[1..], rest);
    }
  }

  lemma ScanStringComplete(pieces: seq<Piece>, rest: Text)
    requires AllWellFormed(pieces)
    ensures ScanString(StringSource(pieces) + rest) == Got(PiecesMeaning(pieces), rest)
  {
    assert (StringSource(pieces) + rest)[1..] == PiecesSource(pieces) + [QUOTE] + rest;
    ScanBodyComplete(pieces, rest);
  }

  lemma {:induction false} ScanBodySound(s: Text) returns (pieces: seq<Piece>)
    requires ScanBody(s).Got?
    ensures AllWellFormed(pieces) && PiecesMeaning(pieces) == ScanBody(s).value
    ensures s == PiecesSource(pieces) + [QUOTE] + ScanBody(s).rest
    decreases |s|
  {
    if s != [] && s[0] == QUOTE {
      pieces := [];
    } else {
      ScanPieceSound(s);
      var Got(p, rest) := ScanPiece(s);
      var tail := ScanBodySound(rest);
      pieces := [p] + tail;
      assert pieces[1..] == tail;
      Assoc(p.Source(), PiecesSource(tail), [QUOTE], ScanBody(s).rest);
    }
  }

  lemma Assoc(a: Text, b: Text, c: Text, d: Text)
    ensures (a + b) + c + d == a + (b + c + d)
  {
  }

  lemma ScanStringSound(s: Text) returns (pieces: seq<Piece>)
    requires ScanString(s).Got?
    ensures AllWellFormed(pieces) && PiecesMeaning(pieces) == ScanString(s).value
    ensures s == StringSource(pieces) + ScanString(s).rest
  {
    pieces := ScanBodySound(s[1..]);
    assert s == [QUOTE] + s[1..];
  }

  // ----- how a string may be spelled

  const UPPER_DIGITS: Text :=
    [0x30, 0x31, 0x32, 0x33, 0x34, 0x35, 0x36, 0x37, 0x38, 0x39, 0x41, 0x42, 0x43, 0x44, 0x45, 0x46]
  const LOWER_DIGITS: Text :=
    [0x30, 0x31, 0x32, 0x33, 0x34, 0x35, 0x36, 0x37, 0x38, 0x39, 0x61, 0x62, 0x63, 0x64, 0x65, 0x66]

  /** `u` is the hexadecimal digit for `v`, in either case. */
  predicate IsDigitFor(u: Unit, v: int) {
    0 <= v < 16 && (u == UPPER_DIGITS[v] || u == LOWER_DIGITS[v])
  }

  /** The two-character escapes: quotation mark, reverse solidus, solidus, backspace, form feed, line feed, carriage
      return, tab. */
  const SHORT_ESCAPES: seq<(Unit, Unit)> :=
    [(0x22, 0x22), (0x5C, 0x5C), (0x2F, 0x2F), (0x62, 0x08), (0x66, 0x0C), (0x6E, 0x0A), (0x72, 0x0D), (0x74, 0x09)]

  /** The ways to write a code unit, as section 7 of RFC 8259 lists them. */
  predicate Spells(source: Text, unit: Unit) {
    || (source == [unit] && (0x20 <= unit <= 0x21 || 0x23 <= unit <= 0x5B || 0x5D <= unit))
    || (|source| == 2 && source[0] == 0x5C && (source[1], unit) in SHORT_ESCAPES)
    || (|source| == 6 && source[0] == 0x5C && source[1] == 0x75
        && IsDigitFor(source[2], unit / 0x1000) && IsDigitFor(source[3], unit / 0x100 % 0x10)
        && IsDigitFor(source[4], unit / 0x10 % 0x10) && IsDigitFor(source[5], unit % 0x10))
  }

  /** Each unit is spelled in one of its ways. */
  predicate AllSpelled(sources: seq<Text>, units: Text) {
    |sources| == |units| && forall i :: 0 <= i < |units| ==> Spells(sources[i], units[i])
  }

  function Concat(sources: seq<Text>): Text {
    if sources == [] then [] else sources[0] + Concat(sources[1..])
  }

  lemma DigitFor(u: Unit, v: int)
    ensures IsDigitFor(u, v) <==> IsHex(u) && HexValue(u) == v
  {
    if IsHex(u) {
      assert UPPER_DIGITS[HexValue(u)] == u || LOWER_DIGITS[HexValue(u)] == u;
    }
  }

  lemma FourDigits(a: int, b: int, c: int, d: int, unit: int)
    requires 0 <= a < 16 && 0 <= b < 16 && 0 <= c < 16 && 0 <= d < 16 && 0 <= unit < 0x10000
    ensures a * 0x1000 + b * 0x100 + c * 0x10 + d == unit
       <==> a == unit / 0x1000 && b == unit / 0x100 % 0x10 && c == unit / 0x10 % 0x10 && d == unit % 0x10
  {
    var x, y := unit / 0x10, unit / 0x100;
    LastDigit(a * 0x100 + b * 0x10 + c, d, unit);
    LastDigit(a * 0x10 + b, c, x);
    LastDigit(a, b, y);
    assert x / 0x10 == y && y / 0x10 == unit / 0x1000;
  }

  lemma LastDigit(front: int, d: int, n: int)
    requires 0 <= d < 16
    ensures front * 16 + d == n <==> front == n / 16 && d == n % 16
  {
  }

  /** A piece means the one unit that its source spells. */
  lemma PieceSpells(p: Piece, unit: Unit)
    requires p.WellFormed()
    ensures p.Meaning() == unit <==> Spells(p.Source(), unit)
  {
    match p
    case Plain(u) => assert p.Source()[0] == u;
    case Escape(c) => assert p.Source()[1] == c;
    case Hex(a, b, c, d) =>
      DigitFor(a, unit / 0x1000);
      DigitFor(b, unit / 0x100 % 0x10);
      DigitFor(c, unit / 0x10 % 0x10);
      DigitFor(d, unit % 0x10);
      FourDigits(HexValue(a), HexValue(b), HexValue(c), HexValue(d), unit);
  }

  /** Whatever spells a unit is a piece. */
  lemma SpelledIsPiece(source: Text, unit: Unit) returns (p: Piece)
    requires Spells(source, unit)
    ensures p.WellFormed() && p.Source() == source && p.Meaning() == unit
  {
    if |source| == 1 {
      p := Plain(unit);
    } else if |source| == 2 {
      p := Escape(source[1]);
      assert p.Source() == source;
    } else {
      DigitFor(source[2], unit / 0x1000);
      DigitFor(source[3], unit / 0x100 % 0x10);
      DigitFor(source[4], unit / 0x10 % 0x10);
      DigitFor(source[5], unit % 0x10);
      p := Hex(source[2], source[3], source[4], source[5]);
      assert p.Source() == source;
    }
    PieceSpells(p, unit);
  }

  lemma {:induction false} SpelledArePieces(sources: seq<Text>, units: Text) returns (pieces: seq<Piece>)
    requires AllSpelled(sources, units)
    ensures AllWellFormed(pieces) && PiecesSource(pieces) == Concat(sources) && PiecesMeaning(pieces) == units
  {
    pieces := [];
    if sources != [] {
      var p := SpelledIsPiece(sources[0], units[0]);
      var tail := SpelledArePieces(sources[1..], units[1..]);
      pieces := [p] + tail;
      PieceCons(p, tail);
      assert [units[0]] + units[1..] == units;
    }
  }

  lemma PieceCons(p: Piece, tail: seq<Piece>)
    requires p.WellFormed() && AllWellFormed(tail)
    ensures AllWellFormed([p] + tail) && PiecesSource([p] + tail) == p.Source() + PiecesSource(tail)
    ensures PiecesMeaning([p] + tail) == [p.Meaning()] + PiecesMeaning(tail)
  {
    assert ([p] + tail)[1..] == tail;
  }

  lemma {:induction false} PiecesAreSpelled(pieces: seq<Piece>) returns (sources: seq<Text>)
    requires AllWellFormed(pieces)
    ensures AllSpelled(sources, PiecesMeaning(pieces)) && Concat(sources) == PiecesSource(pieces)
  {
    sources := [];
    if pieces != [] {
      var tail := PiecesAreSpelled(pieces[1..]);
      sources := [pieces[0].Source()] + tail;
      PieceSpells(pieces[0], pieces[0].Meaning());
      assert sources[1..] == tail;
    }
  }

  /** A string is read as these units exactly when its source, between quotation marks, spells them one by one. */
  lemma ScanStringIff(s: Text, units: Text, rest: Text)
    ensures ScanString(s) == Got(units, rest)
       <==> exists sources :: AllSpelled(sources, units) && s == [QUOTE] + Concat(sources) + [QUOTE] + rest
  {
    if ScanString(s) == Got(units, rest) {
      var pieces := ScanStringSound(s);
      var sources := PiecesAreSpelled(pieces);
      assert AllSpelled(sources, units);
    }
    if sources :| AllSpelled(sources, units) && s == [QUOTE] + Concat(sources) + [QUOTE] + rest {
      var pieces := SpelledArePieces(sources, units);
      ScanStringComplete(pieces, rest);
    }
  }

  // ----- numbers

  datatype Exponent = Exponent(letter: Unit, sign: Option<Unit>, digits: Text) {
    predicate WellFormed() {
      && (letter == LOWER_E || letter == UPPER_E)
      && (sign.Some? ==> sign.value == PLUS || sign.value == MINUS)
      && digits != [] && AllDigits(digits)
    }

    function Source(): Text {
      [letter] + (if sign.Some? then [sign.value] else []) + digits
    }
  }

  /** A number token: sign, integer digits, and the two optional groups of the number pattern. */
  datatype Number = Number(minus: bool, whole: Text, fraction: Option<Text>, exponent: Option<Exponent>) {
    predicate WellFormed() {
      && whole != [] && AllDigits(whole) && (whole[0] == ZERO ==> |whole| == 1)
      && (fraction.Some? ==> fraction.value != [] && AllDigits(fraction.value))
      && (exponent.Some? ==> exponent.value.WellFormed())
    }

    function Source(): Text {
      if minus then [MINUS] + Magnitude() else Magnitude()
    }

    function Magnitude(): Text {
      whole + (FractionSource(fraction) + ExponentSource(exponent))
    }

    predicate IsFloat() {
      fraction.Some? || exponent.Some?
    }
  }

  predicate AllDigits(s: Text) {
    forall i :: 0 <= i < |s| ==> IsDigit(s[i])
  }

  function FractionSource(f: Option<Text>): Text {
    if f.Some? then [DOT] + f.value else []
  }

  function ExponentSource(e: Option<Exponent>): Text {
    if e.Some? then e.value.Source() else []
  }

  /** The longest run of digits, and what follows it. */
  function ScanDigits(s: Text): (r: (Text, Text))
    ensures AllDigits(r.0) && s == r.0 + r.1
    ensures r.1 != [] ==> !IsDigit(r.1[0])
  {
    if s != [] && IsDigit(s[0]) then
      var (digits, rest) := ScanDigits(s[1..]);
      ([s[0]] + digits, rest)
    else ([], s)
  }

  /** The integer part: a lone zero, or digits that start with another. */
  function ScanWhole(s: Text): (r: Scan<Text>) {
    if s == [] || !IsDigit(s[0]) then Fail
    else if s[0] == ZERO then Got([ZERO], s[1..])
    else
      var (digits, rest) := ScanDigits(s);
      Got(digits, rest)
  }

  /** The optional fraction group: a group that cannot match takes nothing. */
  function ScanFraction(s: Text): (Option<Text>, Text) {
    if s != [] && s[0] == DOT then
      var (digits, rest) := ScanDigits(s[1..]);
      if digits == [] then (None, s) else (Some(digits), rest)
    else (None, s)
  }

  function ScanSign(s: Text): (Option<Unit>, Text) {
    if s != [] && (s[0] == PLUS || s[0] == MINUS) then (Some(s[0]), s[1..]) else (None, s)
  }

  function ScanExponent(s: Text): (Option<Exponent>, Text) {
    if s != [] && (s[0] == LOWER_E || s[0] == UPPER_E) then
      var (sign, tail) := ScanSign(s[1..]);
      var (digits, rest) := ScanDigits(tail);
      if digits == [] then (None, s) else (Some(Exponent(s[0], sign, digits)), rest)
    else (None, s)
  }

  function ScanMagnitude(minus: bool, s: Text): Scan<Number> {
    match ScanWhole(s)
    case Fail => Fail
    case Got(whole, s1) =>
      var (fraction, s2) := ScanFraction(s1);
      var (exponent, s3) := ScanExponent(s2);
      Got(Number(minus, whole, fraction, exponent), s3)
  }

  /** The sticky number pattern, greedy left to right. */
  function ScanNumber(s: Text): Scan<Number> {
    if s != [] && s[0] == MINUS then ScanMagnitude(true, s[1..]) else ScanMagnitude(false, s)
  }

  /** Whether `rest` cannot be read as more of a number. */
  predicate EndsNumber(rest: Text) {
    rest == [] || !(IsDigit(rest[0]) || rest[0] == DOT || rest[0] == LOWER_E || rest[0] == UPPER_E)
  }

  lemma {:induction false} ScanDigitsComplete(digits: Text, rest: Text)
    requires AllDigits(digits) && (rest == [] || !IsDigit(rest[0]))
    ensures ScanDigits(digits + rest) == (digits, rest)
  {
    if digits == [] {
      assert digits + rest == rest;
    } else {
      assert (digits + rest)[1..] == digits[1..] + rest;
      assert [digits[0]] + digits[1..] == digits;
      ScanDigitsComplete(digits[1..], rest);
    }
  }

  lemma ScanSignComplete(sign: Option<Unit>, rest: Text)
    requires sign.Some? ==> sign.value == PLUS || sign.value == MINUS
    requires rest != [] && IsDigit(rest[0])
    ensures ScanSign((if sign.Some? then [sign.value] else []) + rest) == (sign, rest)
  {
    if sign.Some? {
      assert ([sign.value] + rest)[1..] == rest;
    } else {
      assert [] + rest == rest;
    }
  }

  lemma ScanExponentComplete(e: Option<Exponent>, rest: Text)
    requires e.Some? ==> e.value.WellFormed()
    requires EndsNumber(rest)
    ensures ScanExponent(ExponentSource(e) + rest) == (e, rest)
  {
    if e == None {
      assert ExponentSource(e) + rest == rest;
    } else {
      var tail := e.value.digits + rest;
      ScanDigitsComplete(e.value.digits, rest);
      ScanSignComplete(e.value.sign, tail);
      BehindHead(e.value.letter, if e.value.sign.Some? then [e.value.sign.value] else [], e.value.digits, rest);
    }
  }

  lemma BehindHead(x: Unit, a: Text, b: Text, c: Text)
    ensures (([x] + a) + b) + c == [x] + (a + (b + c)) && ([x] + (a + (b + c)))[1..] == a + (b + c)
  {
  }

  lemma ScanFractionComplete(f: Option<Text>, rest: Text)
    requires f.Some? ==> f.value != [] && AllDigits(f.value)
    requires rest == [] || !(IsDigit(rest[0]) || rest[0] == DOT)
    ensures ScanFraction(FractionSource(f) + rest) == (f, rest)
  {
    if f == None {
      assert FractionSource(f) + rest == rest;
    } else {
      assert (FractionSource(f) + rest)[1..] == f.value + rest;
      ScanDigitsComplete(f.value, rest);
    }
  }

  lemma ScanWholeComplete(whole: Text, rest: Text)
    requires whole != [] && AllDigits(whole) && (whole[0] == ZERO ==> |whole| == 1)
    requires rest == [] || !IsDigit(rest[0])
    ensures ScanWhole(whole + rest) == Got(whole, rest)
  {
    if whole[0] == ZERO {
      assert whole == [ZERO] && (whole + rest)[1..] == rest;
    } else {
      ScanDigitsComplete(whole, rest);
    }
  }

  lemma Regroup(a: Text, b: Text, c: Text, d: Text)
    ensures (a + (b + c)) + d == a + (b + (c + d))
  {
  }

  lemma ScanMagnitudeComplete(n: Number, rest: Text)
    requires n.WellFormed() && EndsNumber(rest)
    ensures ScanMagnitude(n.minus, n.Magnitude() + rest) == Got(n, rest)
  {
    var s2 := ExponentSource(n.exponent) + rest;
    var s1 := FractionSource(n.fraction) + s2;
    ScanExponentComplete(n.exponent, rest);
    ScanFractionComplete(n.fraction, s2);
    ScanWholeComplete(n.whole, s1);
    Regroup(n.whole, FractionSource(n.fraction), ExponentSource(n.exponent), rest);
  }

  lemma ScanNumberComplete(n: Number, rest: Text)
    requires n.WellFormed() && EndsNumber(rest)
    ensures ScanNumber(n.Source() + rest) == Got(n, rest)
  {
    ScanMagnitudeComplete(n, rest);
    var tail := n.Magnitude() + rest;
    if n.minus {
      assert n.Source() + rest == [MINUS] + tail;
    } else {
      assert n.Source() + rest == tail && tail[0] == n.whole[0];
    }
  }

  lemma ScanExponentSound(s: Text)
    ensures var (e, rest) := ScanExponent(s);
            (e.Some? ==> e.value.WellFormed()) && s == ExponentSource(e) + rest
  {
    if s != [] && (s[0] == LOWER_E || s[0] == UPPER_E) {
      var (sign, tail) := ScanSign(s[1..]);
      ScanSignSound(s[1..]);
      var (digits, rest) := ScanDigits(tail);
      Regroup4(s, sign, digits, rest);
    }
  }

  lemma ScanSignSound(s: Text)
    ensures var (sign, tail) := ScanSign(s);
      s == (if sign.Some? then [sign.value] else []) + tail
  {
  }

  lemma Regroup4(s: Text, sign: Option<Unit>, digits: Text, rest: Text)
    requires s != [] && s[1..] == (if sign.Some? then [sign.value] else []) + (digits + rest)
    ensures s == Exponent(s[0], sign, digits).Source() + rest
  {
    assert s == [s[0]] + s[1..];
  }

  lemma ScanFractionSound(s: Text)
    ensures var (f, rest) := ScanFraction(s);
            (f.Some? ==> f.value != [] && AllDigits(f.value)) && s == FractionSource(f) + rest
  {
    if s != [] && s[0] == DOT {
      assert s == [DOT] + s[1..];
    }
  }

  lemma ScanWholeSound(s: Text)
    requires ScanWhole(s).Got?
    ensures var Got(whole, rest) := ScanWhole(s);
            whole != [] && AllDigits(whole) && (whole[0] == ZERO ==> |whole| == 1) && s == whole + rest
  {
  }

  lemma ScanMagnitudeSound(minus: bool, s: Text)
    requires ScanMagnitude(minus, s).Got?
    ensures ScanMagnitude(minus, s).value.WellFormed() && ScanMagnitude(minus, s).value.minus == minus
    ensures s == ScanMagnitude(minus, s).value.Magnitude() + ScanMagnitude(minus, s).rest
    ensures |ScanMagnitude(minus, s).rest| < |s|
  {
    ScanWholeSound(s);
    var Got(whole, s1) := ScanWhole(s);
    ScanFractionSound(s1);
    var (f, s2) := ScanFraction(s1);
    ScanExponentSound(s2);
    var (e, s3) := ScanExponent(s2);
    Regroup(whole, FractionSource(f), ExponentSource(e), s3);
  }

  lemma MinusFirst(s: Text, n: Number, rest: Text)
    requires s != [] && s[0] == MINUS && n.minus && s[1..] == n.Magnitude() + rest
    ensures s == n.Source() + rest
  {
    assert s == [MINUS] + s[1..];
  }

  lemma ScanNumberSound(s: Text)
    requires ScanNumber(s).Got?
    ensures ScanNumber(s).value.WellFormed()
    ensures s == ScanNumber(s).value.Source() + ScanNumber(s).rest
    ensures |ScanNumber(s).rest| < |s|
  {
    if s[0] == MINUS {
      ScanMagnitudeSound(true, s[1..]);
      MinusFirst(s, ScanNumber(s).value, ScanNumber(s).rest);
    } else {
      ScanMagnitudeSound(false, s);
    }
  }
}
