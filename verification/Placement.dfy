/** Where the splitter puts each module-level statement, and the order of a rendered file
    (`scripts/split_modules.py`). */
module Placement {
  import opened ImportCycles

  const FUNCTIONS: Stem := "_functions"
  const SHARED: Stem := "_shared"
  const INIT: Stem := "__init__"

  /** The names a piece of the module reads, those it reads at run time, and those it rebinds. */
  datatype Refs = Refs(all: set<Name>, runtime: set<Name>, rebound: set<Name>)

  /** One top-level piece of the module; `_parse` keeps them in source order. */
  datatype Item =
    | Class(name: Name, stem: Stem, refs: Refs)
    | Function(name: Name, refs: Refs)
    | Statement(targets: seq<Name>, refs: Refs)
  {
    function Binds(): set<Name> {
      if Statement? then Elements(targets) else {name}
    }

    predicate IsDeclaration() {
      !Statement?
    }

    function DeclaredIn(): Stem {
      if Class? then stem else FUNCTIONS
    }
  }

  type Module = seq<Item>

  /** What `_parse` yields and `_check_splittable` lets through. */
  ghost predicate Splittable(p: Module) {
    && (exists i, j :: 0 <= i < j < |p| && p[i].Class? && p[j].Class?)
    && (forall i :: 0 <= i < |p| ==> p[i].refs.runtime <= p[i].refs.all)
    && (forall i :: 0 <= i < |p| && p[i].Class? ==> p[i].stem !in {FUNCTIONS, SHARED, INIT})
    && (forall i, j :: 0 <= i < j < |p| && p[i].Class? && p[j].Class? ==> p[i].stem != p[j].stem)
  }

  // ----- the placement rule

  /** The names some declaration of `stem` reads. */
  function DeclarationReads(p: Module, stem: Stem): set<Name> {
    set i, n | 0 <= i < |p| && p[i].IsDeclaration() && p[i].DeclaredIn() == stem && n in p[i].refs.all :: n
  }

  function DeclarationStems(p: Module): set<Stem> {
    set i | 0 <= i < |p| && p[i].IsDeclaration() :: p[i].DeclaredIn()
  }

  /** The names a top-level function rebinds with `global`. */
  function Rebound(p: Module): set<Name> {
    set i, n | 0 <= i < |p| && p[i].Function? && n in p[i].refs.rebound :: n
  }

  predicate ReadByAnother(p: Module, i: nat)
    requires i < |p|
  {
    exists j :: 0 <= j < |p| && j != i && p[j].Statement? && p[j].refs.all * p[i].Binds() != {}
  }

  /** The files whose declarations read what statement `i` binds, and `_shared` when another statement does. */
  function OwnersOf(p: Module, i: nat): set<Stem>
    requires i < |p|
  {
    (set s | s in DeclarationStems(p) && DeclarationReads(p, s) * p[i].Binds() != {})
    + (if ReadByAnother(p, i) then {SHARED} else {})
  }

  /** Rule 4. */
  ghost predicate Places(p: Module, i: nat, where: Stem)
    requires i < |p| && p[i].Statement?
  {
    if p[i].targets == [] then where == INIT
    else if Rebound(p) * p[i].Binds() != {} then where == FUNCTIONS
    else if |OwnersOf(p, i)| == 1 then where in OwnersOf(p, i)
    else where == SHARED
  }

  datatype Outcome = Placed(where: map<nat, Stem>, rebound: set<Name>) | RefusedRebinding(stem: Stem)

  /** `placement` assigns each statement the file of rule 4. */
  ghost predicate FollowsRule(p: Module, placement: map<nat, Stem>) {
    forall i :: 0 <= i < |p| && p[i].Statement? ==> i in placement && Places(p, i, placement[i])
  }

  ghost predicate NoClassRebinds(p: Module) {
    forall i :: 0 <= i < |p| && p[i].Class? ==> p[i].refs.rebound == {}
  }

  /** The first loop of `_assign_owners`: what each target file's declarations read. */
  method MergeReads(p: Module) returns (readBy: map<Stem, set<Name>>, rebound: set<Name>)
    ensures readBy.Keys == DeclarationStems(p)
    ensures forall s :: s in readBy ==> readBy[s] == DeclarationReads(p, s)
    ensures rebound == Rebound(p)
  {
    readBy, rebound := map[], {};
    for k := 0 to |p|
      invariant readBy.Keys == DeclarationStems(p[..k])
      invariant forall s :: s in readBy ==> readBy[s] == DeclarationReads(p[..k], s)
      invariant rebound == Rebound(p[..k])
    {
      if p[k].IsDeclaration() {
        var stem := p[k].DeclaredIn();
        GrowReads(p, k);
        readBy := readBy[stem := (if stem in readBy then readBy[stem] else {}) + p[k].refs.all];
        rebound := rebound + (if p[k].Function? then p[k].refs.rebound else {});
      } else {
        SkipStatement(p, k);
      }
    }
    assert p[..|p|] == p;
  }

  /** The file of one statement. */
  method PlaceOf(p: Module, i: nat, readBy: map<Stem, set<Name>>, rebound: set<Name>) returns (stem: Stem)
    requires i < |p| && p[i].Statement?
    requires readBy.Keys == DeclarationStems(p) && forall s :: s in readBy ==> readBy[s] == DeclarationReads(p, s)
    requires rebound == Rebound(p)
    ensures Places(p, i, stem)
  {
    var owners := (set s | s in readBy && readBy[s] * p[i].Binds() != {})
      + (if ReadByAnother(p, i) then {SHARED} else {});
    assert owners == OwnersOf(p, i);
    stem := SHARED;
    if p[i].targets == [] {
      stem := INIT;
    } else if rebound * p[i].Binds() != {} {
      stem := FUNCTIONS;
    } else if |owners| == 1 {
      stem :| stem in owners;
    }
  }

  /** `_assign_owners`: refused exactly when a class rebinds a module name. */
  method AssignOwners(p: Module) returns (r: Outcome)
    ensures r.Placed? <==> NoClassRebinds(p)
    ensures r.Placed? ==> FollowsRule(p, r.where) && r.rebound == Rebound(p)
    ensures r.RefusedRebinding? ==> exists i :: 0 <= i < |p| && p[i].Class? && p[i].stem == r.stem && p[i].refs.rebound != {}
  {
    var readBy, rebound := MergeReads(p);
    if i :| 0 <= i < |p| && p[i].Class? && p[i].refs.rebound != {} {
      return RefusedRebinding(p[i].stem);
    }
    var where: map<nat, Stem> := map[];
    for i := 0 to |p|
      invariant forall j :: 0 <= j < i && p[j].Statement? ==> j in where && Places(p, j, where[j])
    {
      if p[i].Statement? {
        var stem := PlaceOf(p, i, readBy, rebound);
        where := where[i := stem];
      }
    }
    r := Placed(where, rebound);
  }

  lemma GrowReads(p: Module, k: nat)
    requires k < |p| && p[k].IsDeclaration()
    ensures DeclarationStems(p[..k + 1]) == DeclarationStems(p[..k]) + {p[k].DeclaredIn()}
    ensures forall s :: DeclarationReads(p[..k + 1], s)
              == DeclarationReads(p[..k], s) + if s == p[k].DeclaredIn() then p[k].refs.all else {}
    ensures p[k].DeclaredIn() !in DeclarationStems(p[..k]) ==> DeclarationReads(p[..k], p[k].DeclaredIn()) == {}
    ensures Rebound(p[..k + 1]) == Rebound(p[..k]) + if p[k].Function? then p[k].refs.rebound else {}
  {
    var q := p[..k + 1];
    assert forall i :: 0 <= i < k ==> q[i] == p[..k][i];
    assert q[k] == p[k];
  }

  lemma SkipStatement(p: Module, k: nat)
    requires k < |p| && p[k].Statement?
    ensures DeclarationStems(p[..k + 1]) == DeclarationStems(p[..k]) && Rebound(p[..k + 1]) == Rebound(p[..k])
    ensures forall s :: DeclarationReads(p[..k + 1], s) == DeclarationReads(p[..k], s)
  {
    var q := p[..k + 1];
    assert forall i :: 0 <= i < k ==> q[i] == p[..k][i];
    assert q[k] == p[k];
  }

  // ----- isolation

  /** A statement placed with a class or with the functions, and not rebound, is read by no declaration
      of another file and by no other statement. */
  lemma PlacedAloneIsPrivate(p: Module, i: nat, where: Stem)
    requires i < |p| && p[i].Statement? && Places(p, i, where)
    requires where != SHARED && where != INIT && Rebound(p) * p[i].Binds() == {}
    ensures forall j :: 0 <= j < |p| && p[j].IsDeclaration() && p[j].refs.all * p[i].Binds() != {} ==> p[j].DeclaredIn() == where
    ensures forall j :: 0 <= j < |p| && j != i && p[j].Statement? ==> p[j].refs.all * p[i].Binds() == {}
    ensures exists j :: 0 <= j < |p| && p[j].IsDeclaration() && p[j].DeclaredIn() == where
  {
    var owners := OwnersOf(p, i);
    OnlyMember(owners, where);
    assert ReadByAnother(p, i) ==> SHARED in owners;
    forall j | 0 <= j < |p| && p[j].IsDeclaration() && p[j].refs.all * p[i].Binds() != {}
      ensures p[j].DeclaredIn() == where
    {
      var n :| n in p[j].refs.all * p[i].Binds();
      assert n in DeclarationReads(p, p[j].DeclaredIn());
      assert p[j].DeclaredIn() in DeclarationStems(p);
      assert p[j].DeclaredIn() in owners;
    }
  }

  lemma OnlyMember<T>(s: set<T>, x: T)
    requires |s| == 1 && x in s
    ensures s == {x}
  {
    assert |s - {x}| == 0;
    assert s == (s - {x}) + {x};
  }

  // ----- the order of a rendered file

  ghost predicate Placing(p: Module, where: map<nat, Stem>) {
    forall i :: 0 <= i < |p| && p[i].Statement? ==> i in where
  }

  function FileOf(p: Module, where: map<nat, Stem>, i: nat): Stem
    requires Placing(p, where) && i < |p|
  {
    if p[i].Statement? then where[i] else p[i].DeclaredIn()
  }

  function DeclaredNames(p: Module, f: Stem): set<Name> {
    set i | 0 <= i < |p| && p[i].IsDeclaration() && p[i].DeclaredIn() == f :: p[i].name
  }

  datatype Slot = Elsewhere | Before | Declared | After {
    function Rank(): nat {
      match this case Elsewhere => 0 case Before => 1 case Declared => 2 case After => 3
    }
  }

  /** Where `_render_file` puts item `i` in file `f`: a statement that names a declaration of the file
      follows the declarations. */
  function SlotOf(p: Module, where: map<nat, Stem>, f: Stem, i: nat): Slot
    requires Placing(p, where) && i < |p|
  {
    if FileOf(p, where, i) != f then Elsewhere
    else if p[i].IsDeclaration() then Declared
    else if p[i].refs.all * DeclaredNames(p, f) == {} then Before
    else After
  }

  /** The items of one slot among the first `n`, in source order. */
  function Pick(p: Module, where: map<nat, Stem>, f: Stem, slot: Slot, n: nat): seq<nat>
    requires Placing(p, where) && n <= |p|
  {
    if n == 0 then []
    else Pick(p, where, f, slot, n - 1) + if SlotOf(p, where, f, n - 1) == slot then [n - 1] else []
  }

  function Rendered(p: Module, where: map<nat, Stem>, f: Stem): seq<nat>
    requires Placing(p, where)
  {
    Pick(p, where, f, Before, |p|) + Pick(p, where, f, Declared, |p|) + Pick(p, where, f, After, |p|)
  }

  ghost predicate Ascending(s: seq<nat>) {
    forall a, b :: 0 <= a < b < |s| ==> s[a] < s[b]
  }

  lemma AscendingSnoc(s: seq<nat>, n: nat)
    requires Ascending(s) && forall i :: i in s ==> i < n
    ensures Ascending(s + [n])
  {
    forall a, b | 0 <= a < b < |s + [n]|
      ensures (s + [n])[a] < (s + [n])[b]
    {
      assert s[a] in s;
    }
  }

  lemma {:induction false} PickIs(p: Module, where: map<nat, Stem>, f: Stem, slot: Slot, n: nat)
    requires Placing(p, where) && n <= |p|
    ensures forall i :: i in Pick(p, where, f, slot, n) <==> 0 <= i < n && SlotOf(p, where, f, i) == slot
    ensures Ascending(Pick(p, where, f, slot, n))
  {
    if n > 0 {
      PickIs(p, where, f, slot, n - 1);
      AscendingSnoc(Pick(p, where, f, slot, n - 1), n - 1);
    }
  }

  /** In file `f`, item `i` comes before item `j`. */
  predicate Precedes(p: Module, where: map<nat, Stem>, f: Stem, i: nat, j: nat)
    requires Placing(p, where) && i < |p| && j < |p|
  {
    var a, b := SlotOf(p, where, f, i).Rank(), SlotOf(p, where, f, j).Rank();
    a < b || (a == b && i < j)
  }

  /** The item at position `a` of a rendered file comes from the slot its position says. */
  lemma RenderedAt(p: Module, where: map<nat, Stem>, f: Stem, a: nat)
    requires Placing(p, where) && a < |Rendered(p, where, f)|
    ensures var x, y := |Pick(p, where, f, Before, |p|)|, |Pick(p, where, f, Declared, |p|)|; var i := Rendered(p, where, f)[a];
      && i < |p|
      && SlotOf(p, where, f, i) == (if a < x then Before else if a < x + y then Declared else After)
      && i == Pick(p, where, f, SlotOf(p, where, f, i), |p|)[if a < x then a else if a < x + y then a - x else a - x - y]
  {
    var x, y, z := Pick(p, where, f, Before, |p|), Pick(p, where, f, Declared, |p|), Pick(p, where, f, After, |p|);
    if a < |x| {
      PickIs(p, where, f, Before, |p|);
      assert x[a] in x;
    } else if a < |x| + |y| {
      PickIs(p, where, f, Declared, |p|);
      assert y[a - |x|] in y;
    } else {
      PickIs(p, where, f, After, |p|);
      assert z[a - |x| - |y|] in z;
    }
  }

  lemma RenderedHolds(p: Module, where: map<nat, Stem>, f: Stem, i: nat)
    requires Placing(p, where) && i < |p| && FileOf(p, where, i) == f
    ensures i in Rendered(p, where, f)
  {
    PickIs(p, where, f, SlotOf(p, where, f, i), |p|);
  }

  lemma RenderedInOrder(p: Module, where: map<nat, Stem>, f: Stem, a: nat, b: nat)
    requires Placing(p, where) && a < b < |Rendered(p, where, f)|
    ensures var r := Rendered(p, where, f); r[a] < |p| && r[b] < |p| && Precedes(p, where, f, r[a], r[b])
  {
    RenderedAt(p, where, f, a);
    RenderedAt(p, where, f, b);
    PickIs(p, where, f, SlotOf(p, where, f, Rendered(p, where, f)[a]), |p|);
  }

  /** A file holds each of its items once, in the order of `Precedes`. */
  lemma RenderedIs(p: Module, where: map<nat, Stem>, f: Stem)
    requires Placing(p, where)
    ensures forall i :: i in Rendered(p, where, f) <==> 0 <= i < |p| && FileOf(p, where, i) == f
    ensures var r := Rendered(p, where, f);
      forall a, b :: 0 <= a < b < |r| ==> r[a] < |p| && r[b] < |p| && Precedes(p, where, f, r[a], r[b])
  {
    var r := Rendered(p, where, f);
    forall a | 0 <= a < |r|
      ensures r[a] < |p| && FileOf(p, where, r[a]) == f
    {
      RenderedAt(p, where, f, a);
    }
    forall i: nat | i < |p| && FileOf(p, where, i) == f
      ensures i in r
    {
      RenderedHolds(p, where, f, i);
    }
    forall a, b | 0 <= a < b < |r|
      ensures r[a] < |p| && r[b] < |p| && Precedes(p, where, f, r[a], r[b])
    {
      RenderedInOrder(p, where, f, a, b);
    }
  }

  // ----- importing a file

  ghost predicate BoundBy(p: Module, n: Name) {
    exists i :: 0 <= i < |p| && n in p[i].Binds()
  }

  /** A module name looked up by the code of item `code`, in the namespace of the file that holds it. */
  datatype Lookup = Lookup(code: nat, name: Name)

  /** The lookups made while each item runs at import: its own, and those of code of other items it calls, be it
      through a decorator, a call, or an object that holds a function. */
  type Lookups = seq<set<Lookup>>

  /** A piece of code looks up only names it reads; under `from __future__ import annotations`, not those it
      mentions in annotations alone. */
  ghost predicate Runs(p: Module, ev: Lookups, hasFuture: bool) {
    |ev| == |p| && forall i, l :: 0 <= i < |p| && l in ev[i] ==> LooksUp(p, l, hasFuture)
  }

  ghost predicate LooksUp(p: Module, l: Lookup, hasFuture: bool) {
    && l.code < |p| && BoundBy(p, l.name)
    && l.name in p[l.code].refs.all && (hasFuture ==> l.name in p[l.code].refs.runtime)
  }

  ghost predicate BoundOnce(p: Module) {
    forall i, j :: 0 <= i < j < |p| ==> p[i].Binds() !! p[j].Binds()
  }

  /** The original module imports: only code above is called, and each name looked up is bound above. */
  ghost predicate ModuleLoads(p: Module, ev: Lookups)
    requires |ev| == |p|
  {
    forall i, l :: 0 <= i < |p| && l in ev[i] ==> l.code <= i && exists k :: 0 <= k < i && l.name in p[k].Binds()
  }

  ghost predicate EarlierBinder(p: Module, where: map<nat, Stem>, f: Stem, i: nat, n: Name)
    requires Placing(p, where) && i < |p|
  {
    exists k :: 0 <= k < |p| && FileOf(p, where, k) == f && n in p[k].Binds() && Precedes(p, where, f, k, i)
  }

  /** `l` is made by code of `f` while item `i` of `f` runs. */
  ghost predicate Within(p: Module, where: map<nat, Stem>, f: Stem, ev: Lookups, i: int, l: Lookup)
    requires Placing(p, where) && |ev| == |p|
  {
    0 <= i < |p| && l in ev[i] && l.code < |p| && FileOf(p, where, i) == f == FileOf(p, where, l.code)
  }

  /** A rendered file imports, as far as its own code and names go. */
  ghost predicate FileLoads(p: Module, where: map<nat, Stem>, f: Stem, ev: Lookups)
    requires Placing(p, where) && |ev| == |p|
  {
    forall i, l :: Within(p, where, f, ev, i, l) ==>
      && (l.code == i || Precedes(p, where, f, l.code, i))
      && (forall j :: 0 <= j < |p| && FileOf(p, where, j) == f && l.name in p[j].Binds() ==> EarlierBinder(p, where, f, i, l.name))
  }

  /** No item runs code that is rendered in a later group of the file. */
  ghost predicate NoEarlyCall(p: Module, where: map<nat, Stem>, f: Stem, ev: Lookups)
    requires Placing(p, where) && |ev| == |p|
  {
    forall i, l :: Within(p, where, f, ev, i, l) ==>
      SlotOf(p, where, f, l.code).Rank() <= SlotOf(p, where, f, i).Rank()
  }

  /** While something above the trailing statements runs, no name is looked up that one of them binds. */
  ghost predicate NoEarlyName(p: Module, where: map<nat, Stem>, f: Stem, ev: Lookups)
    requires Placing(p, where) && |ev| == |p|
  {
    forall i, l, j :: Within(p, where, f, ev, i, l) && BindsLate(p, where, f, j, l.name) ==> SlotOf(p, where, f, i) == After
  }

  ghost predicate BindsLate(p: Module, where: map<nat, Stem>, f: Stem, j: int, n: Name)
    requires Placing(p, where)
  {
    0 <= j < |p| && SlotOf(p, where, f, j) == After && n in p[j].Binds()
  }

  ghost predicate NoEarlyUse(p: Module, where: map<nat, Stem>, f: Stem, ev: Lookups)
    requires Placing(p, where) && |ev| == |p|
  {
    NoEarlyCall(p, where, f, ev) && NoEarlyName(p, where, f, ev)
  }

  /** The same, of names, while the file's declarations run. */
  ghost predicate NoEarlyDeclaration(p: Module, where: map<nat, Stem>, f: Stem, ev: Lookups)
    requires Placing(p, where) && |ev| == |p|
  {
    forall i, l, j :: Within(p, where, f, ev, i, l) && BindsLate(p, where, f, j, l.name) ==> SlotOf(p, where, f, i) != Declared
  }

  lemma BinderIsEarlier(p: Module, where: map<nat, Stem>, f: Stem, ev: Lookups, hasFuture: bool, i: nat, l: Lookup, j: nat)
    requires Placing(p, where) && Runs(p, ev, hasFuture) && BoundOnce(p) && ModuleLoads(p, ev)
    requires Within(p, where, f, ev, i, l) && j < |p| && FileOf(p, where, j) == f && l.name in p[j].Binds()
    requires SlotOf(p, where, f, l.code).Rank() <= SlotOf(p, where, f, i).Rank()
    requires SlotOf(p, where, f, j) == After ==> SlotOf(p, where, f, i) == After
    ensures Precedes(p, where, f, j, i)
  {
    var k :| 0 <= k < i && l.name in p[k].Binds();
    assert k == j;
    assert LooksUp(p, l, hasFuture);
    if SlotOf(p, where, f, j) == Declared {
      assert l.name in DeclaredNames(p, f);
    }
  }

  lemma LoadsIfNoEarlyUse(p: Module, where: map<nat, Stem>, f: Stem, ev: Lookups, hasFuture: bool)
    requires Placing(p, where) && Runs(p, ev, hasFuture) && BoundOnce(p) && ModuleLoads(p, ev)
    requires NoEarlyUse(p, where, f, ev)
    ensures FileLoads(p, where, f, ev)
  {
    forall i, l | Within(p, where, f, ev, i, l)
      ensures l.code == i || Precedes(p, where, f, l.code, i)
      ensures forall j :: 0 <= j < |p| && FileOf(p, where, j) == f && l.name in p[j].Binds() ==> EarlierBinder(p, where, f, i, l.name)
    {
      assert l in ev[i];
      forall j | 0 <= j < |p| && FileOf(p, where, j) == f && l.name in p[j].Binds()
        ensures EarlierBinder(p, where, f, i, l.name)
      {
        assert SlotOf(p, where, f, j) == After ==> BindsLate(p, where, f, j, l.name);
        BinderIsEarlier(p, where, f, ev, hasFuture, i, l, j);
      }
    }
  }

  lemma NoEarlyUseIfLoads(p: Module, where: map<nat, Stem>, f: Stem, ev: Lookups)
    requires Placing(p, where) && |ev| == |p| && BoundOnce(p) && FileLoads(p, where, f, ev)
    ensures NoEarlyUse(p, where, f, ev)
  {
    forall i, l | Within(p, where, f, ev, i, l)
      ensures SlotOf(p, where, f, l.code).Rank() <= SlotOf(p, where, f, i).Rank()
    {
      assert l.code == i || Precedes(p, where, f, l.code, i);
    }
    forall i, l, j | Within(p, where, f, ev, i, l) && BindsLate(p, where, f, j, l.name)
      ensures SlotOf(p, where, f, i) == After
    {
      assert FileOf(p, where, j) == f;
      assert EarlierBinder(p, where, f, i, l.name);
      var k :| 0 <= k < |p| && FileOf(p, where, k) == f && l.name in p[k].Binds() && Precedes(p, where, f, k, i);
      assert k == j;
    }
  }

  /** When the module imports and binds each name once, a file imports exactly when nothing in it is used too
      early: no code of a later group, and no name of a trailing statement. */
  lemma FileLoadsIff(p: Module, where: map<nat, Stem>, f: Stem, ev: Lookups, hasFuture: bool)
    requires Placing(p, where) && Runs(p, ev, hasFuture) && BoundOnce(p) && ModuleLoads(p, ev)
    ensures FileLoads(p, where, f, ev) <==> NoEarlyUse(p, where, f, ev)
  {
    if NoEarlyUse(p, where, f, ev) {
      LoadsIfNoEarlyUse(p, where, f, ev, hasFuture);
    }
    if FileLoads(p, where, f, ev) {
      NoEarlyUseIfLoads(p, where, f, ev);
    }
  }

  lemma DeclaringFile(p: Module, where: map<nat, Stem>, f: Stem, j: nat)
    requires Splittable(p) && Placing(p, where) && j < |p| && SlotOf(p, where, f, j) == After
    ensures f != SHARED && f != INIT && p[j].Statement? && where[j] == f
  {
    var n :| n in p[j].refs.all * DeclaredNames(p, f);
    var d :| 0 <= d < |p| && p[d].IsDeclaration() && p[d].DeclaredIn() == f && p[d].name == n;
    assert |FUNCTIONS| == 10 && |SHARED| == 7 && |INIT| == 8;
  }

  /** With nothing rebound by `global`, no statement of a file with declarations reads another's name, so only while
      a declaration runs, or code rendered too low is called, can a name be looked up too early. */
  lemma OnlyDeclarationsAreEarly(p: Module, where: map<nat, Stem>, f: Stem, ev: Lookups, hasFuture: bool)
    requires Splittable(p) && Placing(p, where) && FollowsRule(p, where) && Runs(p, ev, hasFuture) && Rebound(p) == {}
    ensures NoEarlyUse(p, where, f, ev) <==> NoEarlyCall(p, where, f, ev) && NoEarlyDeclaration(p, where, f, ev)
  {
    if NoEarlyCall(p, where, f, ev) && NoEarlyDeclaration(p, where, f, ev) {
      forall i, l, j | Within(p, where, f, ev, i, l) && BindsLate(p, where, f, j, l.name)
        ensures SlotOf(p, where, f, i) == After
      {
        if SlotOf(p, where, f, i) == Before {
          assert SlotOf(p, where, f, l.code).Rank() <= 1;
          StatementsApart(p, where, f, l, hasFuture, j);
        }
      }
    }
  }

  lemma StatementsApart(p: Module, where: map<nat, Stem>, f: Stem, l: Lookup, hasFuture: bool, j: nat)
    requires Splittable(p) && Placing(p, where) && FollowsRule(p, where) && Rebound(p) == {}
    requires LooksUp(p, l, hasFuture) && SlotOf(p, where, f, l.code) == Before
    requires j < |p| && SlotOf(p, where, f, j) == After
    ensures l.name !in p[j].Binds()
  {
    DeclaringFile(p, where, f, j);
    PlacedAloneIsPrivate(p, j, f);
    assert p[l.code].refs.all * p[j].Binds() == {};
  }
}
