/** What a matcher of a body says of it (`bajutsu/common/assertions/dict_match.py`,
    `bajutsu/common/scenario/models/assertions/_dict_matcher.py`): the matcher written after a value, and the part
    of a value a matcher reads. */
module DictPatterns {
  import opened JsonLexis
  import opened JsonReader
  import opened DictMatch
  import opened FloatText
  import opened JsonText
  import opened PythonJson
  import JsonGrammar

  // ----- the escape of a key

  /** Plain keys name different fields. */
  lemma PlainKeysAreApart(a: Text, b: Text)
    requires !IsOperatorKey(a) && !IsOperatorKey(b) && Unescape(a) == Unescape(b)
    ensures a == b
  {
    PlainKey(a);
    PlainKey(b);
  }

  lemma PlainKey(key: Text)
    requires !IsOperatorKey(key)
    ensures KeyFor(Unescape(key)) == key
  {
    if StartsWith(key, [DOLLAR, DOLLAR]) {
      assert key[0] == key[..2][0] && key[1] == key[..2][1];
      assert key[1..][..1] == [DOLLAR];
      assert key == [DOLLAR] + key[1..];
    }
  }

  // ----- the matcher written after a value

  predicate FieldsDiffer(fields: seq<PyField>) {
    forall i, j :: 0 <= i < j < |fields| ==> fields[i].key != fields[j].key
  }

  /** No object has a key twice, as in everything that is loaded. */
  predicate Tidy(v: Py) {
    match v
    case PyList(items) => forall i :: 0 <= i < |items| ==> Tidy(items[i])
    case PyDict(fields) => FieldsDiffer(fields) && forall i :: 0 <= i < |fields| ==> Tidy(fields[i].value)
    case _ => true
  }

  /** Every scalar by its text, every object and array by its parts. */
  function PatternOf(v: Py): Want {
    match v
    case PyList(items) => WList(seq(|items|, i requires 0 <= i < |items| => PatternOf(items[i])))
    case PyDict(fields) =>
      WMap(seq(|fields|, i requires 0 <= i < |fields| => Entry(KeyFor(fields[i].key), PatternOf(fields[i].value))))
    case _ => WText(PyText(v))
  }

  /** `w` has the scalars and arrays of `v`, and its objects, perhaps with more fields. */
  predicate Extends(w: Py, v: Py)
    decreases v
  {
    match v
    case PyList(items) =>
      w.PyList? && |w.items| == |items| && forall i :: 0 <= i < |items| ==> Extends(w.items[i], items[i])
    case PyDict(fields) =>
      w.PyDict? && forall i :: 0 <= i < |fields| ==>
        Get(w.fields, fields[i].key).Some? && Extends(Get(w.fields, fields[i].key).value, fields[i].value)
    case _ => PyText(w) == PyText(v)
  }

  lemma PatternIsPlain(v: Py)
    ensures !IsOperatorMap(PatternOf(v))
  {
    if v.PyDict? && v.fields != [] {
      KeyIsUndone(v.fields[0].key);
      assert PatternOf(v).entries[0] == Entry(KeyFor(v.fields[0].key), PatternOf(v.fields[0].value));
    }
  }

  /** It loads. */
  lemma {:induction false} PatternLoads(v: Py)
    requires Tidy(v)
    ensures Checked(PatternOf(v))
  {
    PatternIsPlain(v);
    match v
    case PyList(items) =>
      forall i | 0 <= i < |items|
        ensures Checked(PatternOf(items[i]))
      {
        PatternLoads(items[i]);
      }
    case PyDict(fields) =>
      forall i | 0 <= i < |fields|
        ensures !IsOperatorKey(KeyFor(fields[i].key)) && Checked(PatternOf(fields[i].value))
      {
        KeyIsUndone(fields[i].key);
        PatternLoads(fields[i].value);
      }
      forall i, j | 0 <= i < j < |fields|
        ensures KeyFor(fields[i].key) != KeyFor(fields[j].key)
      {
        KeyIsUndone(fields[i].key);
        KeyIsUndone(fields[j].key);
      }
    case _ =>
  }

  /** It matches exactly the values that extend the one it was written after. */
  lemma {:induction false} PatternMatchesIff(v: Py, w: Py, search: Search)
    ensures Holds(PatternOf(v), Some(w), search) <==> Extends(w, v)
    decreases v
  {
    PatternIsPlain(v);
    match v
    case PyList(items) =>
      forall i | w.PyList? && |w.items| == |items| && 0 <= i < |items|
        ensures Holds(PatternOf(items[i]), Some(w.items[i]), search) <==> Extends(w.items[i], items[i])
      {
        PatternMatchesIff(items[i], w.items[i], search);
      }
    case PyDict(fields) =>
      var es := PatternOf(v).entries;
      assert forall i :: 0 <= i < |fields| ==> es[i] == Entry(KeyFor(fields[i].key), PatternOf(fields[i].value));
      forall i | w.PyDict? && 0 <= i < |fields|
        ensures Holds(PatternOf(fields[i].value), Get(w.fields, Unescape(KeyFor(fields[i].key))), search)
           <==> (var got := Get(w.fields, fields[i].key); got.Some? && Extends(got.value, fields[i].value))
      {
        KeyIsUndone(fields[i].key);
        PatternIsPlain(fields[i].value);
        var got := Get(w.fields, fields[i].key);
        if got.Some? {
          PatternMatchesIff(fields[i].value, got.value, search);
        }
      }
    case _ =>
  }

  lemma {:induction false} GetAt(fields: seq<PyField>, i: nat)
    requires FieldsDiffer(fields) && i < |fields|
    ensures Get(fields, fields[i].key) == Some(fields[i].value)
  {
    if i > 0 {
      GetAt(fields[1..], i - 1);
    }
  }

  /** A value matches its own matcher. */
  lemma {:induction false} ExtendsItself(v: Py)
    requires Tidy(v)
    ensures Extends(v, v)
  {
    match v
    case PyList(items) =>
      forall i | 0 <= i < |items|
        ensures Extends(items[i], items[i])
      {
        ExtendsItself(items[i]);
      }
    case PyDict(fields) =>
      forall i | 0 <= i < |fields|
        ensures Get(fields, fields[i].key) == Some(fields[i].value) && Extends(fields[i].value, fields[i].value)
      {
        GetAt(fields, i);
        ExtendsItself(fields[i].value);
      }
    case _ =>
  }

  lemma {:induction false} ItemsAreTidy(items: seq<Json>, number: Text -> Double, i: nat)
    requires ItemsValid(items) && AllWellFormedDoubles(number) && i < |items|
    ensures Tidy(LoadedItems(items, number)[i])
    decreases items, 0
  {
    if i == 0 {
      LoadedIsTidy(items[0], number);
    } else {
      ItemsAreTidy(items[1..], number, i - 1);
    }
  }

  lemma TidyCons(first: PyField, rest: seq<PyField>, fields: seq<Field>)
    requires fields != [] && |rest| == |fields| - 1 && FieldsDiffer(rest) && first.key == fields[0].key
    requires forall i :: 0 <= i < |rest| ==> rest[i].key == fields[1..][i].key
    requires forall i :: 1 <= i < |fields| ==> fields[i].key != fields[0].key
    ensures FieldsDiffer([first] + rest)
  {
    forall i, j | 0 <= i < j < |fields|
      ensures ([first] + rest)[i].key != ([first] + rest)[j].key
    {
      assert rest[j - 1].key == fields[1..][j - 1].key == fields[j].key;
    }
  }

  lemma {:induction false} FieldsAreTidy(fields: seq<Field>, number: Text -> Double)
    requires FieldsValid(fields) && AllWellFormedDoubles(number)
    ensures var loaded := LoadedFields(fields, number);
      && FieldsDiffer(loaded)
      && forall i :: 0 <= i < |fields| ==> loaded[i].key == fields[i].key && Tidy(loaded[i].value)
    decreases fields, 0
  {
    if fields != [] {
      LoadedIsTidy(fields[0].value, number);
      FieldsAreTidy(fields[1..], number);
      var loaded := LoadedFields(fields, number);
      forall i | 1 <= i < |fields|
        ensures loaded[i] == LoadedFields(fields[1..], number)[i - 1] && fields[i] == fields[1..][i - 1]
      {
      }
      TidyCons(loaded[0], LoadedFields(fields[1..], number), fields);
    }
  }

  /** Nothing the runner loads has a key twice in one object. */
  lemma {:induction false} LoadedIsTidy(v: Json, number: Text -> Double)
    requires Valid(v) && AllWellFormedDoubles(number)
    ensures Tidy(Loaded(v, number))
    decreases v, 1
  {
    match v
    case JArray(items) =>
      forall i | 0 <= i < |items|
        ensures Tidy(LoadedItems(items, number)[i])
      {
        ItemsAreTidy(items, number, i);
      }
    case JObject(fields) => FieldsAreTidy(fields, number);
    case _ =>
  }

  /** Of any body that is loaded, the matcher written after it loads and matches it. */
  lemma BodyMatchesItsPattern(body: Text, v: Py, number: Text -> Double, search: Search)
    requires AllWellFormedDoubles(number) && Loads(body, v, number)
    ensures Checked(PatternOf(v)) && Holds(PatternOf(v), Some(v), search)
  {
    var before, d, after :| JsonGrammar.Writes(body, before, d, after) && ShortIntegers(d)
      && Valid(Meaning(d)) && v == Loaded(Meaning(d), number);
    LoadedIsTidy(Meaning(d), number);
    PatternLoads(v);
    ExtendsItself(v);
    PatternMatchesIff(v, v, search);
  }

  // ----- the part of a value a matcher reads

  function EntryFor(es: seq<Entry>, name: Text): (r: Option<nat>)
    ensures r.Some? ==> r.value < |es| && Unescape(es[r.value].key) == name
    ensures r.None? ==> forall i :: 0 <= i < |es| ==> Unescape(es[i].key) != name
  {
    if es == [] then None
    else if Unescape(es[0].key) == name then Some(0)
    else
      match EntryFor(es[1..], name)
      case None => None
      case Some(i) => Some(i + 1)
  }

  /** Only the fields the matcher names, and of them only what it reads; what is compared as text stays whole. */
  function Project(w: Want, v: Py): Py
    decreases w, 1, 0
  {
    match w
    case WList(items) =>
      if v.PyList? && |v.items| == |items| then
        PyList(seq(|items|, i requires 0 <= i < |items| => Project(items[i], v.items[i])))
      else v
    case WMap(_) => if v.PyDict? && !IsOperatorMap(w) then PyDict(ProjectFields(w, v.fields)) else v
    case _ => v
  }

  function ProjectFields(w: Want, fields: seq<PyField>): seq<PyField>
    requires w.WMap?
    decreases w, 0, |fields|
  {
    if fields == [] then []
    else
      (match EntryFor(w.entries, fields[0].key)
       case None => []
       case Some(i) => [PyField(fields[0].key, Project(w.entries[i].want, fields[0].value))])
      + ProjectFields(w, fields[1..])
  }

  lemma {:induction false} ProjectedField(w: Want, fields: seq<PyField>, i: nat)
    requires w.WMap? && i < |w.entries|
    requires forall j :: 0 <= j < |w.entries| && Unescape(w.entries[j].key) == Unescape(w.entries[i].key) ==> j == i
    ensures Get(ProjectFields(w, fields), Unescape(w.entries[i].key))
         == match Get(fields, Unescape(w.entries[i].key))
            case None => None
            case Some(v) => Some(Project(w.entries[i].want, v))
    decreases fields
  {
    if fields != [] {
      ProjectedField(w, fields[1..], i);
      var k := EntryFor(w.entries, fields[0].key);
      var rest := ProjectFields(w, fields[1..]);
      if k.Some? {
        var f := PyField(fields[0].key, Project(w.entries[k.value].want, fields[0].value));
        assert ProjectFields(w, fields) == [f] + rest && ([f] + rest)[1..] == rest;
      } else {
        assert ProjectFields(w, fields) == rest;
      }
    }
  }

  lemma OneEntryEach(es: seq<Entry>, i: nat, j: nat)
    requires i < |es| && j < |es| && KeysDiffer(es) && Unescape(es[i].key) == Unescape(es[j].key)
    requires !IsOperatorKey(es[i].key) && !IsOperatorKey(es[j].key)
    ensures i == j
  {
    PlainKeysAreApart(es[i].key, es[j].key);
  }

  /** A matcher sees of a value only that part. */
  lemma {:induction false} OnlyNamedFieldsMatter(w: Want, v: Py, search: Search)
    requires Checked(w)
    ensures Holds(w, Some(v), search) <==> Holds(w, Some(Project(w, v)), search)
    decreases w
  {
    match w
    case WList(items) =>
      forall i | v.PyList? && |v.items| == |items| && 0 <= i < |items|
        ensures Holds(items[i], Some(v.items[i]), search) <==> Holds(items[i], Some(Project(items[i], v.items[i])), search)
      {
        OnlyNamedFieldsMatter(items[i], v.items[i], search);
      }
    case WMap(es) =>
      forall i | !IsOperatorMap(w) && v.PyDict? && 0 <= i < |es|
        ensures Holds(es[i].want, Get(v.fields, Unescape(es[i].key)), search)
           <==> Holds(es[i].want, Get(ProjectFields(w, v.fields), Unescape(es[i].key)), search)
      {
        forall j | 0 <= j < |es| && Unescape(es[j].key) == Unescape(es[i].key)
          ensures j == i
        {
          OneEntryEach(es, i, j);
        }
        ProjectedField(w, v.fields, i);
        var got := Get(v.fields, Unescape(es[i].key));
        if got.Some? {
          OnlyNamedFieldsMatter(es[i].want, got.value, search);
        }
      }
    case _ =>
  }
}
