/** The key/value dictionaries a request is matched by: the runner's evaluator, which names the first mismatch
    (`bajutsu/common/assertions/dict_match.py`), and the matcher a generated Playwright test carries
    (`bajutsu/codegen/_playwright_dict_match.py`). */
module DictMatch {
  import opened JsonLexis
  import opened JsonReader
  import opened FloatText
  import opened JsonText
  import opened PythonJson
  import JsonGrammar

  // ----- matcher values

  /** A matcher value as written; of the values that load, a flag stands only beside an operator. */
  datatype Want = WText(text: Text) | WFlag(on: bool) | WList(items: seq<Want>) | WMap(entries: seq<Entry>)

  datatype Entry = Entry(key: Text, want: Want)

  const DOLLAR: Unit := 0x24
  const EXISTS: Text := [DOLLAR, 0x65, 0x78, 0x69, 0x73, 0x74, 0x73]
  const MATCHES: Text := [DOLLAR, 0x6D, 0x61, 0x74, 0x63, 0x68, 0x65, 0x73]

  predicate IsOperatorKey(key: Text) {
    StartsWith(key, [DOLLAR]) && !StartsWith(key, [DOLLAR, DOLLAR])
  }

  /** An operator's key begins with one dollar sign, and not with two. */
  lemma OperatorKeyIff(key: Text)
    ensures IsOperatorKey(key) <==> key != [] && key[0] == 0x24 && (|key| == 1 || key[1] != 0x24)
  {
    assert |key| >= 1 ==> key[..1] == [key[0]];
    assert |key| >= 2 ==> key[..2] == [key[0], key[1]];
  }

  /** The field a plain key names. */
  function Unescape(key: Text): Text {
    if StartsWith(key, [DOLLAR, DOLLAR]) then key[1..] else key
  }

  predicate IsOperatorMap(w: Want) {
    w.WMap? && w.entries != [] && forall i :: 0 <= i < |w.entries| ==> IsOperatorKey(w.entries[i].key)
  }

  predicate KeysDiffer(es: seq<Entry>) {
    forall i, j :: 0 <= i < j < |es| ==> es[i].key != es[j].key
  }

  /** What loading demands of a nested value: `_check_value`. */
  predicate Checked(w: Want) {
    match w
    case WText(_) => true
    case WFlag(_) => false
    case WList(items) => forall i :: 0 <= i < |items| ==> Checked(items[i])
    case WMap(es) =>
      && KeysDiffer(es)
      && if IsOperatorMap(w) then OperatorsChecked(es)
         else forall i :: 0 <= i < |es| ==> !IsOperatorKey(es[i].key) && Checked(es[i].want)
  }

  predicate OperatorsChecked(es: seq<Entry>) {
    forall i :: 0 <= i < |es| ==>
      (es[i].key == MATCHES && es[i].want.WText?) || (es[i].key == EXISTS && es[i].want.WFlag?)
  }

  function Lookup(es: seq<Entry>, key: Text): Option<Want> {
    if es == [] then None else if es[0].key == key then Some(es[0].want) else Lookup(es[1..], key)
  }

  /** A dictionary's entry. */
  function Get(fields: seq<PyField>, name: Text): Option<Py> {
    if fields == [] then None else if fields[0].key == name then Some(fields[0].value) else Get(fields[1..], name)
  }

  /** The same of the generated reader's `Map`. */
  function MapGet(fields: seq<Field>, name: Text): Option<Json> {
    if fields == [] then None else if fields[0].key == name then Some(fields[0].value) else MapGet(fields[1..], name)
  }

  // ----- what a match is

  /** Whether a pattern is found in a text. */
  type Search = (Text, Text) -> bool

  predicate OperatorsHold(es: seq<Entry>, observed: seq<Text>, search: Search) {
    && (Lookup(es, EXISTS) == Some(WFlag(true)) ==> observed != [])
    && (Lookup(es, EXISTS) == Some(WFlag(false)) ==> observed == [])
    && match Lookup(es, MATCHES)
       case Some(WText(p)) => exists o :: o in observed && search(p, o)
       case _ => true
  }

  /** The texts an operator sees of a value that may be absent. */
  function Seen(got: Option<Py>, search: Search): seq<Text> {
    if got.None? then [] else [PyText(got.value)]
  }

  predicate Holds(w: Want, got: Option<Py>, search: Search) {
    if IsOperatorMap(w) then OperatorsHold(w.entries, Seen(got, search), search)
    else got.Some? && HoldsOf(w, got.value, search)
  }

  /** A value that is there, and no operators. */
  predicate HoldsOf(w: Want, got: Py, search: Search)
    requires !IsOperatorMap(w)
  {
    match w
    case WText(t) => PyText(got) == t
    case WFlag(_) => false
    case WList(items) =>
      && got.PyList? && |got.items| == |items|
      && forall i :: 0 <= i < |items| ==> Holds(items[i], Some(got.items[i]), search)
    case WMap(es) =>
      && got.PyDict?
      && forall i :: 0 <= i < |es| ==> Holds(es[i].want, Get(got.fields, Unescape(es[i].key)), search)
  }

  // ----- the runner: the first mismatch, by its place

  datatype Step = Name(name: Text) | At(index: nat)

  type Place = seq<Step>

  /** `at` leads through maps and lists to a value that does not hold of itself, past nothing but values that hold. */
  ghost predicate FirstMiss(w: Want, got: Option<Py>, at: Place, search: Search)
    decreases |at|
  {
    if at == [] then MissesHere(w, got, search)
    else
      && !IsOperatorMap(w) && got.Some?
      && match at[0]
         case At(i) =>
           && w.WList? && got.value.PyList? && |got.value.items| == |w.items| && i < |w.items|
           && (forall j :: 0 <= j < i ==> Holds(w.items[j], Some(got.value.items[j]), search))
           && FirstMiss(w.items[i], Some(got.value.items[i]), at[1..], search)
         case Name(n) =>
           && w.WMap? && got.value.PyDict?
           && (exists i :: 0 <= i < |w.entries| && Unescape(w.entries[i].key) == n
                && (forall j :: 0 <= j < i ==> Holds(w.entries[j].want, Get(got.value.fields, Unescape(w.entries[j].key)), search))
                && FirstMiss(w.entries[i].want, Get(got.value.fields, n), at[1..], search))
  }

  predicate MissesHere(w: Want, got: Option<Py>, search: Search) {
    if IsOperatorMap(w) then !OperatorsHold(w.entries, Seen(got, search), search)
    else if got.None? then true
    else
      match w
      case WText(t) => PyText(got.value) != t
      case WFlag(_) => true
      case WList(items) => !(got.value.PyList? && |got.value.items| == |items|)
      case WMap(_) => !got.value.PyDict?
  }

  lemma {:induction false} FirstMissFails(w: Want, got: Option<Py>, at: Place, search: Search)
    requires FirstMiss(w, got, at, search)
    ensures !Holds(w, got, search)
    decreases |at|
  {
    if at != [] {
      match at[0]
      case At(i) => FirstMissFails(w.items[i], Some(got.value.items[i]), at[1..], search);
      case Name(n) =>
        var i :| 0 <= i < |w.entries| && Unescape(w.entries[i].key) == n
          && FirstMiss(w.entries[i].want, Get(got.value.fields, n), at[1..], search);
        FirstMissFails(w.entries[i].want, Get(got.value.fields, n), at[1..], search);
    }
  }

  lemma MissUnderName(w: Want, got: Py, i: nat, at: Place, search: Search, whole: Place)
    requires w.WMap? && !IsOperatorMap(w) && got.PyDict? && i < |w.entries|
    requires forall j :: 0 <= j < i ==> Holds(w.entries[j].want, Get(got.fields, Unescape(w.entries[j].key)), search)
    requires FirstMiss(w.entries[i].want, Get(got.fields, Unescape(w.entries[i].key)), at, search)
    ensures var step := [Name(Unescape(w.entries[i].key))];
      whole + step + at == whole + (step + at) && FirstMiss(w, Some(got), step + at, search)
  {
    assert ([Name(Unescape(w.entries[i].key))] + at)[1..] == at;
  }

  lemma MissInItem(w: Want, got: Py, i: nat, at: Place, search: Search, whole: Place)
    requires w.WList? && got.PyList? && |got.items| == |w.items| && i < |w.items|
    requires forall j :: 0 <= j < i ==> Holds(w.items[j], Some(got.items[j]), search)
    requires FirstMiss(w.items[i], Some(got.items[i]), at, search)
    ensures whole + [At(i)] + at == whole + ([At(i)] + at) && FirstMiss(w, Some(got), [At(i)] + at, search)
  {
    assert ([At(i)] + at)[1..] == at;
  }

  /** `_body_mismatch`: nothing if the value holds, else the place of the first that does not. */
  method BodyMismatch(w: Want, got: Option<Py>, search: Search, whole: Place) returns (r: Option<Place>)
    ensures r.None? <==> Holds(w, got, search)
    ensures r.Some? ==> exists at :: r.value == whole + at && FirstMiss(w, got, at, search)
    decreases w
  {
    assert whole == whole + [];
    if IsOperatorMap(w) {
      return if OperatorsHold(w.entries, Seen(got, search), search) then None else Some(whole);
    }
    if got.None? {
      return Some(whole);
    }
    match w
    case WText(t) => return if PyText(got.value) == t then None else Some(whole);
    case WFlag(_) => return Some(whole);
    case WMap(es) =>
      if !got.value.PyDict? {
        return Some(whole);
      }
      for i := 0 to |es|
        invariant forall j :: 0 <= j < i ==> Holds(es[j].want, Get(got.value.fields, Unescape(es[j].key)), search)
      {
        var name := Unescape(es[i].key);
        r := BodyMismatch(es[i].want, Get(got.value.fields, name), search, whole + [Name(name)]);
        if r.Some? {
          ghost var at :| r.value == whole + [Name(name)] + at
            && FirstMiss(es[i].want, Get(got.value.fields, name), at, search);
          MissUnderName(w, got.value, i, at, search, whole);
          FirstMissFails(w, got, [Name(name)] + at, search);
          return;
        }
      }
      return None;
    case WList(items) =>
      if !got.value.PyList? || |got.value.items| != |items| {
        return Some(whole);
      }
      for i := 0 to |items|
        invariant forall j :: 0 <= j < i ==> Holds(items[j], Some(got.value.items[j]), search)
      {
        r := BodyMismatch(items[i], Some(got.value.items[i]), search, whole + [At(i)]);
        if r.Some? {
          ghost var at :| r.value == whole + [At(i)] + at && FirstMiss(items[i], Some(got.value.items[i]), at, search);
          MissInItem(w, got.value, i, at, search, whole);
          FirstMissFails(w, got, [At(i)] + at, search);
          return;
        }
      }
      return None;
  }

  // ----- the generated matcher

  /** `Object.keys` of a matcher map: every entry, in whatever order the keys come. */
  ghost predicate IsKeyOrder(order: seq<Entry> -> seq<nat>) {
    && (forall es, k :: k in order(es) ==> k < |es|)
    && (forall es, i :: 0 <= i < |es| ==> i in order(es))
  }

  predicate GeneratedOps(es: seq<Entry>, observed: seq<Text>, search: Search) {
    if Lookup(es, EXISTS) == Some(WFlag(true)) && |observed| == 0 then false
    else if Lookup(es, EXISTS) == Some(WFlag(false)) && |observed| > 0 then false
    else
      match Lookup(es, MATCHES)
      case Some(WText(p)) => exists o :: o in observed && search(p, o)
      case _ => true
  }

  predicate GeneratedIsOps(w: Want, order: seq<Entry> -> seq<nat>)
    requires IsKeyOrder(order)
  {
    w.WMap? && |order(w.entries)| > 0 && forall k :: k in order(w.entries) ==> IsOperatorKey(w.entries[k].key)
  }

  /** `text` is `bajutsuText` of a value that stands alone. */
  ghost predicate IsTextForm(text: Json -> Text, number: Text -> Double) {
    AllWellFormedDoubles(number) && forall v :: Valid(v) ==> text(v) == TextOf(v, false, number)
  }

  /** `bajutsuBody`. */
  predicate GeneratedBody(w: Want, got: Option<Json>, text: Json -> Text, search: Search, order: seq<Entry> -> seq<nat>)
    requires IsKeyOrder(order)
    decreases w
  {
    if GeneratedIsOps(w, order) then GeneratedOps(w.entries, if got.Some? then [text(got.value)] else [], search)
    else if got.None? then false
    else if w.WText? then text(got.value) == w.text
    else if w.WList? then
      && got.value.JArray? && |got.value.items| == |w.items|
      && forall i :: 0 <= i < |w.items| ==> GeneratedBody(w.items[i], Some(got.value.items[i]), text, search, order)
    else
      && got.value.JObject?
      && (w.WMap? ==>
        forall k :: k in order(w.entries) ==>
          GeneratedBody(w.entries[k].want, MapGet(got.value.fields, Unescape(w.entries[k].key)), text, search, order))
  }

  lemma SameOperatorMaps(w: Want, order: seq<Entry> -> seq<nat>)
    requires IsKeyOrder(order)
    ensures GeneratedIsOps(w, order) <==> IsOperatorMap(w)
  {
    if w.WMap? && w.entries != [] {
      assert 0 in order(w.entries);
    }
    if w.WMap? && order(w.entries) != [] {
      assert order(w.entries)[0] in order(w.entries);
    }
  }

  // ----- one verdict

  /** The runner's value of what the generated test may have read. */
  function LoadedIf(got: Option<Json>, number: Text -> Double): Option<Py>
    requires AllWellFormedDoubles(number) && (got.Some? ==> Valid(got.value))
  {
    match got
    case None => None
    case Some(v) => Some(Loaded(v, number))
  }

  /** A value read, in which both sides see the same texts. */
  predicate Alike(got: Option<Json>) {
    got.Some? ==> Valid(got.value) && Clean(got.value, false)
  }

  lemma {:induction false} ItemAlike(items: seq<Json>, number: Text -> Double, i: nat)
    requires ItemsValid(items) && ItemsClean(items) && AllWellFormedDoubles(number) && i < |items|
    ensures Alike(Some(items[i])) && LoadedItems(items, number)[i] == Loaded(items[i], number)
  {
    if i > 0 {
      ItemAlike(items[1..], number, i - 1);
    }
  }

  /** Every field's value is alike; the keys of the outermost object may hold what they like. */
  predicate ValuesAlike(fields: seq<Field>) {
    fields != [] ==> Alike(Some(fields[0].value)) && ValuesAlike(fields[1..])
  }

  lemma {:induction false} CleanFieldsAreAlike(fields: seq<Field>)
    requires FieldsValid(fields) && FieldsClean(fields)
    ensures ValuesAlike(fields)
  {
    if fields != [] {
      CleanFieldsAreAlike(fields[1..]);
    }
  }

  lemma {:induction false} FieldAlike(fields: seq<Field>, number: Text -> Double, name: Text)
    requires FieldsValid(fields) && ValuesAlike(fields) && AllWellFormedDoubles(number)
    ensures Alike(MapGet(fields, name))
    ensures Get(LoadedFields(fields, number), name) == LoadedIf(MapGet(fields, name), number)
  {
    if fields != [] {
      FieldAlike(fields[1..], number, name);
      assert LoadedFields(fields, number)[1..] == LoadedFields(fields[1..], number);
    }
  }

  /** What both verdicts come down to at a list or a map. */
  lemma {:induction false} ListsAgree(w: Want, v: Json, number: Text -> Double, text: Json -> Text, search: Search,
                                      order: seq<Entry> -> seq<nat>)
    requires w.WList? && Checked(w) && IsKeyOrder(order) && IsTextForm(text, number) && Valid(v) && Clean(v, false)
    ensures GeneratedBody(w, Some(v), text, search, order) <==> Holds(w, Some(Loaded(v, number)), search)
    decreases w, 0
  {
    if v.JArray? && |v.items| == |w.items| {
      forall i | 0 <= i < |w.items|
        ensures GeneratedBody(w.items[i], Some(v.items[i]), text, search, order)
           <==> Holds(w.items[i], Some(LoadedItems(v.items, number)[i]), search)
      {
        ItemAlike(v.items, number, i);
        BodiesAgree(w.items[i], Some(v.items[i]), number, text, search, order);
      }
    }
  }

  lemma {:induction false} MapsAgree(w: Want, fields: seq<Field>, number: Text -> Double, text: Json -> Text, search: Search,
                                     order: seq<Entry> -> seq<nat>)
    requires w.WMap? && !IsOperatorMap(w) && Checked(w) && IsKeyOrder(order) && IsTextForm(text, number)
    requires FieldsValid(fields) && ValuesAlike(fields)
    ensures GeneratedBody(w, Some(JObject(fields)), text, search, order)
       <==> Holds(w, Some(PyDict(LoadedFields(fields, number))), search)
    decreases w, 0
  {
    SameOperatorMaps(w, order);
    var es := w.entries;
    forall i | 0 <= i < |es|
      ensures GeneratedBody(es[i].want, MapGet(fields, Unescape(es[i].key)), text, search, order)
         <==> Holds(es[i].want, Get(LoadedFields(fields, number), Unescape(es[i].key)), search)
    {
      FieldAlike(fields, number, Unescape(es[i].key));
      BodiesAgree(es[i].want, MapGet(fields, Unescape(es[i].key)), number, text, search, order);
    }
  }

  /** On a value without lone surrogates, the generated matcher and the runner give one verdict, whatever the order of
      the keys. */
  lemma {:induction false} BodiesAgree(w: Want, got: Option<Json>, number: Text -> Double, text: Json -> Text, search: Search,
                                       order: seq<Entry> -> seq<nat>)
    requires Checked(w) && IsKeyOrder(order) && IsTextForm(text, number) && Alike(got)
    ensures GeneratedBody(w, got, text, search, order) <==> Holds(w, LoadedIf(got, number), search)
    decreases w, 1
  {
    SameOperatorMaps(w, order);
    if got.Some? {
      var v := got.value;
      TextsAgreeIff(v, number);
      if !IsOperatorMap(w) {
        match w
        case WText(_) =>
        case WList(_) => ListsAgree(w, v, number, text, search, order);
        case WMap(_) =>
          if v.JObject? {
            CleanFieldsAreAlike(v.fields);
            MapsAgree(w, v.fields, number, text, search, order);
          }
      }
    }
  }

  // ----- a whole exchange

  datatype Param = Param(name: Text, value: Text)

  /** A request: its decoded query parameters and its body. */
  datatype Exchange = Exchange(params: seq<Param>, body: Option<Text>)

  function Values(params: seq<Param>, name: Text): seq<Text> {
    if params == [] then []
    else (if params[0].name == name then [params[0].value] else []) + Values(params[1..], name)
  }

  /** Every value of the parameter is seen, however often it is given, in order. */
  lemma {:induction false} ValuesAre(params: seq<Param>, name: Text)
    ensures forall v :: v in Values(params, name) <==> Param(name, v) in params
    ensures params != [] && params[|params| - 1].name == name ==>
      Values(params, name) == Values(params[..|params| - 1], name) + [params[|params| - 1].value]
  {
    if params != [] {
      var rest := params[1..];
      ValuesAre(rest, name);
      assert params == [params[0]] + rest;
      if rest != [] {
        assert params[..|params| - 1][1..] == rest[..|rest| - 1];
        assert rest[|rest| - 1] == params[|params| - 1];
      } else {
        assert params[..0] == [];
      }
    }
  }

  /** What loading demands of `query`: strings and operator maps under plain keys. */
  predicate QueryChecked(es: seq<Entry>) {
    && es != [] && KeysDiffer(es)
    && forall i :: 0 <= i < |es| ==>
      !IsOperatorKey(es[i].key) && (es[i].want.WText? || (IsOperatorMap(es[i].want) && Checked(es[i].want)))
  }

  predicate BodyChecked(es: seq<Entry>) {
    es != [] && Checked(WMap(es)) && !IsOperatorMap(WMap(es))
  }

  predicate ParamHolds(e: Entry, params: seq<Param>, search: Search) {
    var observed := Values(params, Unescape(e.key));
    match e.want
    case WText(t) => t in observed
    case WMap(ops) => OperatorsHold(ops, observed, search)
    case _ => true
  }

  predicate QueryHolds(es: seq<Entry>, n: nat, params: seq<Param>, search: Search)
    requires n <= |es|
  {
    forall i :: 0 <= i < n ==> ParamHolds(es[i], params, search)
  }

  predicate QueryPasses(ex: Exchange, query: Option<seq<Entry>>, search: Search) {
    query.Some? ==> QueryHolds(query.value, |query.value|, ex.params, search)
  }

  /** `parsed` is what `json.loads` makes of a request's body, if it has one and that is JSON. */
  ghost predicate IsParsed(ex: Exchange, parsed: Option<Py>, number: Text -> Double)
    requires AllWellFormedDoubles(number)
  {
    match parsed
    case Some(v) => ex.body.Some? && Loads(ex.body.value, v, number)
    case None => ex.body.Some? ==> forall v :: !Loads(ex.body.value, v, number)
  }

  predicate IsDict(parsed: Option<Py>) {
    parsed.Some? && parsed.value.PyDict?
  }

  predicate DictHolds(ex: Exchange, parsed: Option<Py>, query: Option<seq<Entry>>, body: Option<seq<Entry>>, search: Search) {
    && QueryPasses(ex, query, search)
    && (body.Some? ==> ex.body.Some? && IsDict(parsed) && Holds(WMap(body.value), parsed, search))
  }

  datatype Miss = InQuery(index: nat) | NoBody | NoObject | InBody(at: Place)

  /** What a miss says of an exchange; everything checked before it holds. */
  ghost predicate Describes(m: Miss, ex: Exchange, parsed: Option<Py>, query: Option<seq<Entry>>, body: Option<seq<Entry>>,
                            search: Search) {
    match m
    case InQuery(i) =>
      && query.Some? && i < |query.value|
      && QueryHolds(query.value, i, ex.params, search) && !ParamHolds(query.value[i], ex.params, search)
    case NoBody => QueryPasses(ex, query, search) && body.Some? && ex.body.None?
    case NoObject => QueryPasses(ex, query, search) && body.Some? && ex.body.Some? && !IsDict(parsed)
    case InBody(at) =>
      && QueryPasses(ex, query, search) && body.Some? && ex.body.Some? && IsDict(parsed)
      && FirstMiss(WMap(body.value), parsed, at, search)
  }

  /** `dict_mismatch`, with the body as it is parsed. */
  method DictMismatch(ex: Exchange, parsed: Option<Py>, query: Option<seq<Entry>>, body: Option<seq<Entry>>, search: Search)
    returns (r: Option<Miss>)
    requires query.Some? ==> QueryChecked(query.value)
    requires body.Some? ==> BodyChecked(body.value)
    ensures r.None? <==> DictHolds(ex, parsed, query, body, search)
    ensures r.Some? ==> Describes(r.value, ex, parsed, query, body, search)
  {
    if query.Some? {
      var es := query.value;
      for i := 0 to |es|
        invariant QueryHolds(es, i, ex.params, search)
      {
        var observed := Values(ex.params, Unescape(es[i].key));
        if es[i].want.WText? {
          if es[i].want.text !in observed {
            return Some(InQuery(i));
          }
          continue;
        }
        if !OperatorsHold(es[i].want.entries, observed, search) {
          return Some(InQuery(i));
        }
      }
    }
    if body.Some? {
      if ex.body.None? {
        return Some(NoBody);
      }
      if !IsDict(parsed) {
        return Some(NoObject);
      }
      var miss := BodyMismatch(WMap(body.value), parsed, search, []);
      if miss.Some? {
        ghost var at :| miss.value == [] + at && FirstMiss(WMap(body.value), parsed, at, search);
        assert miss.value == at;
        return Some(InBody(miss.value));
      }
    }
    return None;
  }

  predicate GeneratedParam(e: Entry, params: seq<Param>, search: Search) {
    var observed := Values(params, Unescape(e.key));
    match e.want
    case WText(t) => t in observed
    case WMap(ops) => GeneratedOps(ops, observed, search)
    case _ => true
  }

  /** `bajutsuDict`. */
  predicate GeneratedDict(ex: Exchange, query: Option<seq<Entry>>, body: Option<seq<Entry>>, text: Json -> Text, search: Search,
                          order: seq<Entry> -> seq<nat>)
    requires IsKeyOrder(order)
  {
    && (query.Some? ==> forall k :: k in order(query.value) ==> GeneratedParam(query.value[k], ex.params, search))
    && (body.Some? ==>
      var parsed := if ex.body.Some? then Read(ex.body.value) else None;
      parsed.Some? && parsed.value.JObject? && GeneratedBody(WMap(body.value), parsed, text, search, order))
  }

  lemma QueriesAgree(params: seq<Param>, es: seq<Entry>, search: Search, order: seq<Entry> -> seq<nat>)
    requires QueryChecked(es) && IsKeyOrder(order)
    ensures (forall k :: k in order(es) ==> GeneratedParam(es[k], params, search)) <==> QueryHolds(es, |es|, params, search)
  {
    assert forall i :: 0 <= i < |es| ==> i in order(es);
    forall i | 0 <= i < |es|
      ensures GeneratedParam(es[i], params, search) <==> ParamHolds(es[i], params, search)
    {
    }
  }

  /** A body that is no object for the generated test, or has no integer too long and no lone surrogate in its values. */
  ghost predicate BodyAlike(body: Text) {
    Read(body).Some? && Read(body).value.JObject? ==> AllShort(body) && ValuesAlike(Read(body).value.fields)
  }

  /** Where the body has no integer too long and no lone surrogate, the generated test matches an exchange if and only if
      the runner does. */
  lemma ExchangesAgree(ex: Exchange, parsed: Option<Py>, query: Option<seq<Entry>>, body: Option<seq<Entry>>,
                       number: Text -> Double, text: Json -> Text, search: Search, order: seq<Entry> -> seq<nat>)
    requires query.Some? ==> QueryChecked(query.value)
    requires body.Some? ==> BodyChecked(body.value)
    requires IsKeyOrder(order) && IsTextForm(text, number) && IsParsed(ex, parsed, number)
    requires ex.body.Some? ==> BodyAlike(ex.body.value)
    ensures GeneratedDict(ex, query, body, text, search, order) <==> DictHolds(ex, parsed, query, body, search)
  {
    if query.Some? {
      QueriesAgree(ex.params, query.value, search, order);
    }
    if body.Some? && ex.body.Some? {
      var read := Read(ex.body.value);
      ParsedIs(ex, parsed, number);
      if read.Some? && read.value.JObject? {
        MapsAgree(WMap(body.value), read.value.fields, number, text, search, order);
      }
    }
  }

  /** What the runner has of a body: what the generated test reads, unless an integer is too long. */
  lemma ParsedIs(ex: Exchange, parsed: Option<Py>, number: Text -> Double)
    requires AllWellFormedDoubles(number) && IsParsed(ex, parsed, number) && ex.body.Some?
    ensures Read(ex.body.value).Some? ==> Valid(Read(ex.body.value).value)
    ensures parsed == if AllShort(ex.body.value) then LoadedIf(Read(ex.body.value), number) else None
  {
    var read := Read(ex.body.value);
    if read.Some? {
      ReadIsValid(ex.body.value);
      LoadsIffRead(ex.body.value, Loaded(read.value, number), number);
    }
    if parsed.Some? {
      LoadsIffRead(ex.body.value, parsed.value, number);
    }
  }

  // ----- and where not

  lemma {:induction false} UnlikeField(fields: seq<Field>, number: Text -> Double) returns (i: nat)
    requires FieldsValid(fields) && !ValuesAlike(fields) && AllWellFormedDoubles(number)
    ensures i < |fields| && Valid(fields[i].value) && !Clean(fields[i].value, false)
    ensures MapGet(fields, fields[i].key) == Some(fields[i].value)
    ensures Get(LoadedFields(fields, number), fields[i].key) == Some(Loaded(fields[i].value, number))
  {
    if !Alike(Some(fields[0].value)) {
      i := 0;
    } else {
      i := UnlikeField(fields[1..], number);
      i := i + 1;
      assert LoadedFields(fields, number)[1..] == LoadedFields(fields[1..], number);
    }
  }

  /** A field's name as a plain key. */
  function KeyFor(name: Text): Text {
    if StartsWith(name, [DOLLAR]) then [DOLLAR] + name else name
  }

  lemma KeyIsUndone(name: Text)
    ensures !IsOperatorKey(KeyFor(name)) && Unescape(KeyFor(name)) == name
  {
    if StartsWith(name, [DOLLAR]) {
      assert name[0] == name[..1][0];
      assert ([DOLLAR] + name)[..2] == [DOLLAR, DOLLAR];
    }
  }

  ghost predicate AgreeOn(es: seq<Entry>, fields: seq<Field>, number: Text -> Double, text: Json -> Text, search: Search,
                          order: seq<Entry> -> seq<nat>)
    requires FieldsValid(fields) && AllWellFormedDoubles(number) && IsKeyOrder(order)
  {
    GeneratedBody(WMap(es), Some(JObject(fields)), text, search, order)
    <==> Holds(WMap(es), Some(PyDict(LoadedFields(fields, number))), search)
  }

  /** On a body's object every matcher that loads gets one verdict if and only if no value in it holds a lone surrogate
      inside. */
  lemma AllMatchersAgreeIff(fields: seq<Field>, number: Text -> Double, text: Json -> Text, search: Search,
                            order: seq<Entry> -> seq<nat>)
    requires FieldsValid(fields) && IsKeyOrder(order) && IsTextForm(text, number)
    ensures (forall es :: BodyChecked(es) ==> AgreeOn(es, fields, number, text, search, order)) <==> ValuesAlike(fields)
  {
    if ValuesAlike(fields) {
      forall es | BodyChecked(es)
        ensures AgreeOn(es, fields, number, text, search, order)
      {
        MapsAgree(WMap(es), fields, number, text, search, order);
      }
    } else {
      var i := UnlikeField(fields, number);
      var es := TextEntry(fields[i].key, text(fields[i].value));
      OneTextDiffers(fields, i, es, number, text, search, order);
    }
  }

  /** The generated test and the runner give an exchange one verdict. */
  ghost predicate OneVerdict(ex: Exchange, parsed: Option<Py>, query: Option<seq<Entry>>, body: Option<seq<Entry>>,
                             text: Json -> Text, search: Search, order: seq<Entry> -> seq<nat>)
    requires IsKeyOrder(order)
  {
    GeneratedDict(ex, query, body, text, search, order) <==> DictHolds(ex, parsed, query, body, search)
  }

  /** On an exchange every matcher that loads gets one verdict if and only if its body, where the generated test reads an
      object, has no integer too long for Python and no lone surrogate inside a value. */
  lemma AllExchangesAgreeIff(ex: Exchange, parsed: Option<Py>, number: Text -> Double, text: Json -> Text, search: Search,
                             order: seq<Entry> -> seq<nat>)
    requires IsKeyOrder(order) && IsTextForm(text, number) && IsParsed(ex, parsed, number)
    ensures (forall query: Option<seq<Entry>>, body: Option<seq<Entry>> ::
               (query.Some? ==> QueryChecked(query.value)) && (body.Some? ==> BodyChecked(body.value)) ==>
                 OneVerdict(ex, parsed, query, body, text, search, order))
       <==> (ex.body.Some? ==> BodyAlike(ex.body.value))
  {
    if ex.body.Some? ==> BodyAlike(ex.body.value) {
      forall query: Option<seq<Entry>>, body: Option<seq<Entry>>
        | (query.Some? ==> QueryChecked(query.value)) && (body.Some? ==> BodyChecked(body.value))
        ensures OneVerdict(ex, parsed, query, body, text, search, order)
      {
        ExchangesAgree(ex, parsed, query, body, number, text, search, order);
      }
    } else {
      var es := TwoVerdicts(ex, parsed, number, text, search, order);
      assert !OneVerdict(ex, parsed, None, Some(es), text, search, order);
    }
  }

  lemma TwoVerdicts(ex: Exchange, parsed: Option<Py>, number: Text -> Double, text: Json -> Text, search: Search,
                    order: seq<Entry> -> seq<nat>) returns (es: seq<Entry>)
    requires IsKeyOrder(order) && IsTextForm(text, number) && IsParsed(ex, parsed, number)
    requires ex.body.Some? && !BodyAlike(ex.body.value)
    ensures BodyChecked(es) && !OneVerdict(ex, parsed, None, Some(es), text, search, order)
  {
    var fields := Read(ex.body.value).value.fields;
    ParsedIs(ex, parsed, number);
    if AllShort(ex.body.value) {
      AllMatchersAgreeIff(fields, number, text, search, order);
      es :| BodyChecked(es) && !AgreeOn(es, fields, number, text, search, order);
    } else {
      es := PresentEntry(fields, text, search, order);
    }
  }

  lemma OnlyExists(on: bool)
    ensures var ops := [Entry(EXISTS, WFlag(on))];
      IsOperatorMap(WMap(ops)) && OperatorsChecked(ops) && KeysDiffer(ops)
      && Lookup(ops, EXISTS) == Some(WFlag(on)) && Lookup(ops, MATCHES) == None
  {
    var ops := [Entry(EXISTS, WFlag(on))];
    assert EXISTS[..1] == [DOLLAR] && EXISTS[..2][1] == 0x65;
    assert EXISTS[1] != MATCHES[1];
    assert ops[1..] == [];
  }

  /** A matcher that asks for the first field, or for the lack of one: the generated test matches the body by it. */
  lemma PresentEntry(fields: seq<Field>, text: Json -> Text, search: Search, order: seq<Entry> -> seq<nat>)
    returns (es: seq<Entry>)
    requires IsKeyOrder(order)
    ensures BodyChecked(es) && GeneratedBody(WMap(es), Some(JObject(fields)), text, search, order)
  {
    var name := if fields == [] then [] else fields[0].key;
    var ops := [Entry(EXISTS, WFlag(fields != []))];
    es := [Entry(KeyFor(name), WMap(ops))];
    KeyIsUndone(name);
    SameOperatorMaps(WMap(es), order);
    SameOperatorMaps(WMap(ops), order);
    OnlyExists(fields != []);
    assert forall k :: k in order(es) ==> k == 0;
    assert GeneratedBody(WMap(ops), MapGet(fields, Unescape(es[0].key)), text, search, order);
  }

  function TextEntry(name: Text, text: Text): seq<Entry> {
    [Entry(KeyFor(name), WText(text))]
  }

  lemma {:induction false} OneTextDiffers(fields: seq<Field>, i: nat, es: seq<Entry>, number: Text -> Double, text: Json -> Text, search: Search,
                       order: seq<Entry> -> seq<nat>)
    requires FieldsValid(fields) && IsKeyOrder(order) && IsTextForm(text, number)
    requires i < |fields| && Valid(fields[i].value) && !Clean(fields[i].value, false)
    requires MapGet(fields, fields[i].key) == Some(fields[i].value)
    requires Get(LoadedFields(fields, number), fields[i].key) == Some(Loaded(fields[i].value, number))
    requires es == TextEntry(fields[i].key, text(fields[i].value))
    ensures BodyChecked(es) && !AgreeOn(es, fields, number, text, search, order)
  {
    KeyIsUndone(fields[i].key);
    TextsAgreeIff(fields[i].value, number);
    SameOperatorMaps(WMap(es), order);
    SameOperatorMaps(es[0].want, order);
    assert 0 in order(es);
    assert GeneratedBody(es[0].want, MapGet(fields, Unescape(es[0].key)), text, search, order);
    assert forall k :: k in order(es) ==> k == 0;
    assert GeneratedBody(WMap(es), Some(JObject(fields)), text, search, order);
    assert !IsOperatorMap(WMap(es)) && !IsOperatorMap(es[0].want);
    var whole := PyDict(LoadedFields(fields, number));
    assert !Holds(es[0].want, Get(whole.fields, Unescape(es[0].key)), search);
    assert !HoldsOf(WMap(es), whole, search);
  }

  /** The body `{"a":["\ud800"]}` is read, and is such a one. */
  lemma SurrogateBody() returns (body: Text)
    ensures Read(body) == Some(JObject([Field([0x61], JArray([JString([0xD800])]))]))
    ensures !ValuesAlike([Field([0x61], JArray([JString([0xD800])]))])
  {
    var lone := [Hex(0x64, 0x38, 0x30, 0x30)];
    var list := DArray([], [Element([], DString(lone), [])]);
    var d := DObject([], [Member([], [Plain(0x61)], [], [], list, [])]);
    SurrogateMeans(lone, list, d);
    body := Source(d);
    assert body == [] + (Source(d) + []);
    JsonGrammar.WrittenIsRead(body, [], d, []);
    assert !Paired([0xD800]);
    assert !ItemsClean([JString([0xD800])]);
  }

  lemma SurrogateMeans(lone: seq<Piece>, list: Doc, d: Doc)
    requires lone == [Hex(0x64, 0x38, 0x30, 0x30)] && list == DArray([], [Element([], DString(lone), [])])
    requires d == DObject([], [Member([], [Plain(0x61)], [], [], list, [])])
    ensures WellFormed(d) && Meaning(d) == JObject([Field([0x61], JArray([JString([0xD800])]))])
  {
    LoneMeans(lone);
    OneElement(DString(lone));
    var key := [Plain(0x61)];
    OneMember(key, list);
    assert key[1..] == [] && PiecesMeaning(key) == [0x61] + PiecesMeaning(key[1..]) == [0x61];
    assert Meaning(DString(lone)) == JString([0xD800]);
    assert Meaning(list) == JArray([JString([0xD800])]);
  }

  lemma LoneMeans(lone: seq<Piece>)
    requires lone == [Hex(0x64, 0x38, 0x30, 0x30)]
    ensures AllWellFormed(lone) && PiecesMeaning(lone) == [0xD800]
  {
    assert lone[0].Meaning() == 0xD800 && lone[1..] == [];
  }

  lemma OneElement(d: Doc)
    requires WellFormed(d)
    ensures WellFormed(DArray([], [Element([], d, [])])) && Meaning(DArray([], [Element([], d, [])])) == JArray([Meaning(d)])
  {
    var es := [Element([], d, [])];
    assert es[1..] == [] && ElementsWellFormed(es[1..]);
    assert ElementsWellFormed(es);
    assert AddElements([], es) == AddElements([] + [Meaning(d)], es[1..]) == [] + [Meaning(d)] == [Meaning(d)];
  }

  lemma OneMember(key: seq<Piece>, d: Doc)
    requires WellFormed(d) && AllWellFormed(key)
    ensures var o := DObject([], [Member([], key, [], [], d, [])]);
      WellFormed(o) && Meaning(o) == JObject([Field(PiecesMeaning(key), Meaning(d))])
  {
    var ms := [Member([], key, [], [], d, [])];
    assert ms[1..] == [] && MembersWellFormed(ms[1..]);
    assert MembersWellFormed(ms);
    assert AddMembers([], ms) == AddMembers(SetField([], PiecesMeaning(key), Meaning(d)), ms[1..]);
  }
}
