/** What an object of the reader keeps of a repeated key (`bajutsu/codegen/_playwright_dict_match.py`). */
module JsonKeys {
  import opened JsonLexis
  import opened JsonReader

  lemma {:induction false} SetAllSnoc(fields: seq<Field>, pairs: seq<Field>, p: Field)
    ensures SetAll(fields, pairs + [p]) == SetField(SetAll(fields, pairs), p.key, p.value)
    decreases pairs
  {
    if pairs == [] {
      assert pairs + [p] == [p];
    } else {
      assert (pairs + [p])[1..] == pairs[1..] + [p];
      SetAllSnoc(SetField(fields, pairs[0].key, pairs[0].value), pairs[1..], p);
    }
  }

  /** `r[i]` stands where its key first occurs among `pairs` and holds the value of its last. */
  ghost predicate FirstPlaceLastValue(pairs: seq<Field>, r: seq<Field>, first: seq<nat>, last: seq<nat>) {
    && |first| == |last| == |r|
    && (forall i :: 0 <= i < |r| ==> IsFirst(pairs, first[i], r[i].key))
    && (forall i :: 0 <= i < |r| ==> IsLast(pairs, last[i], r[i].key) && r[i] == pairs[last[i]])
    && (forall i, j :: 0 <= i < j < |r| ==> first[i] < first[j])
    && (forall p :: p in pairs ==> exists i :: 0 <= i < |r| && r[i].key == p.key)
  }

  predicate IsFirst(pairs: seq<Field>, k: nat, key: Text) {
    k < |pairs| && pairs[k].key == key && forall j :: 0 <= j < k ==> pairs[j].key != key
  }

  predicate IsLast(pairs: seq<Field>, k: nat, key: Text) {
    k < |pairs| && pairs[k].key == key && forall j :: k < j < |pairs| ==> pairs[j].key != key
  }

  lemma {:induction false} SetFieldAt(fields: seq<Field>, key: Text, value: Json) returns (k: nat)
    ensures k <= |fields| && forall i :: 0 <= i < k ==> fields[i].key != key
    ensures k < |fields| ==> fields[k].key == key && SetField(fields, key, value) == fields[k := Field(key, value)]
    ensures k == |fields| ==> SetField(fields, key, value) == fields + [Field(key, value)]
  {
    if fields == [] || fields[0].key == key {
      k := 0;
    } else {
      k := SetFieldAt(fields[1..], key, value);
      k := k + 1;
    }
  }

  /** A duplicate key keeps its first position and its last value. */
  lemma {:induction false} RepeatedKeys(pairs: seq<Field>) returns (first: seq<nat>, last: seq<nat>)
    ensures FirstPlaceLastValue(pairs, SetAll([], pairs), first, last)
  {
    if pairs == [] {
      first, last := [], [];
    } else {
      var n := |pairs| - 1;
      var init, p := pairs[..n], pairs[n];
      assert pairs == init + [p];
      first, last := RepeatedKeys(init);
      SetAllSnoc([], init, p);
      var r := SetAll([], init);
      var k := SetFieldAt(r, p.key, p.value);
      if k < |r| {
        RepeatedKey(init, p, r, first, last, k);
        last := last[k := n];
      } else {
        NewKey(init, p, r, first, last);
        first, last := first + [n], last + [n];
      }
    }
  }

  lemma FirstLastStep(pairs: seq<Field>, p: Field, k: nat, key: Text)
    ensures IsFirst(pairs, k, key) ==> IsFirst(pairs + [p], k, key)
    ensures IsLast(pairs, k, key) && key != p.key ==> IsLast(pairs + [p], k, key)
  {
  }

  lemma RepeatedKey(pairs: seq<Field>, p: Field, r: seq<Field>, first: seq<nat>, last: seq<nat>, k: nat)
    requires FirstPlaceLastValue(pairs, r, first, last) && k < |r| && r[k].key == p.key
    ensures FirstPlaceLastValue(pairs + [p], r[k := p], first, last[k := |pairs|])
  {
    OtherKeysLater(pairs, r, first, k);
    var r' := r[k := p];
    forall i | 0 <= i < |r'|
      ensures IsFirst(pairs + [p], first[i], r'[i].key)
      ensures IsLast(pairs + [p], last[k := |pairs|][i], r'[i].key) && r'[i] == (pairs + [p])[last[k := |pairs|][i]]
    {
      FirstLastStep(pairs, p, first[i], r[i].key);
      FirstLastStep(pairs, p, last[i], r[i].key);
    }
    EveryKey(pairs, p, r, r', k);
  }

  lemma NewKey(pairs: seq<Field>, p: Field, r: seq<Field>, first: seq<nat>, last: seq<nat>)
    requires FirstPlaceLastValue(pairs, r, first, last)
    requires forall i :: 0 <= i < |r| ==> r[i].key != p.key
    ensures FirstPlaceLastValue(pairs + [p], r + [p], first + [|pairs|], last + [|pairs|])
  {
    forall i | 0 <= i < |r|
      ensures IsFirst(pairs + [p], first[i], r[i].key) && IsLast(pairs + [p], last[i], r[i].key)
      ensures r[i] == (pairs + [p])[last[i]]
    {
      FirstLastStep(pairs, p, first[i], r[i].key);
      FirstLastStep(pairs, p, last[i], r[i].key);
    }
    NewKeyPlaces(pairs, p, r);
    EveryKey(pairs, p, r, r + [p], |r|);
  }

  /** A new key is first and last where it stands. */
  lemma NewKeyPlaces(pairs: seq<Field>, p: Field, r: seq<Field>)
    requires forall q :: q in pairs ==> exists i :: 0 <= i < |r| && r[i].key == q.key
    requires forall i :: 0 <= i < |r| ==> r[i].key != p.key
    ensures IsFirst(pairs + [p], |pairs|, p.key) && IsLast(pairs + [p], |pairs|, p.key)
  {
    forall j | 0 <= j < |pairs|
      ensures (pairs + [p])[j].key != p.key
    {
      assert pairs[j] in pairs;
    }
  }

  lemma EveryKey(pairs: seq<Field>, p: Field, r: seq<Field>, r': seq<Field>, k: nat)
    requires forall q :: q in pairs ==> exists i :: 0 <= i < |r| && r[i].key == q.key
    requires |r| <= |r'| && forall i :: 0 <= i < |r| ==> r'[i].key == r[i].key
    requires k < |r'| && r'[k].key == p.key
    ensures forall q :: q in pairs + [p] ==> exists i :: 0 <= i < |r'| && r'[i].key == q.key
  {
    forall q | q in pairs + [p]
      ensures exists i :: 0 <= i < |r'| && r'[i].key == q.key
    {
      if q in pairs {
        var i :| 0 <= i < |r| && r[i].key == q.key;
        assert r'[i].key == q.key;
      }
    }
  }

  lemma OtherKeysLater(pairs: seq<Field>, r: seq<Field>, first: seq<nat>, k: nat)
    requires |first| == |r| && k < |r|
    requires forall i :: 0 <= i < |r| ==> IsFirst(pairs, first[i], r[i].key)
    requires forall i, j :: 0 <= i < j < |r| ==> first[i] < first[j]
    ensures forall i :: 0 <= i < |r| && i != k ==> r[i].key != r[k].key
  {
    forall i | 0 <= i < |r| && i != k
      ensures r[i].key != r[k].key
    {
      assert IsFirst(pairs, first[i], r[i].key) && IsFirst(pairs, first[k], r[k].key);
      assert first[i] < first[k] || first[k] < first[i];
    }
  }

  /** The same of an object as it is read. */
  lemma ObjectKeys(inside: Text, ms: seq<Member>) returns (first: seq<nat>, last: seq<nat>)
    requires WellFormed(DObject(inside, ms))
    ensures FirstPlaceLastValue(MemberFields(ms), Meaning(DObject(inside, ms)).fields, first, last)
  {
    first, last := RepeatedKeys(MemberFields(ms));
    AddMembersIsSetAll([], ms);
  }
}
