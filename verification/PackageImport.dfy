/** Importing the package a module splits into: which lookups of the module still find their name
    (`scripts/split_modules.py`). */
module PackageImport {
  import opened ImportCycles
  import opened Placement

  // ----- the files of a split

  /** What one file reads, over everything that lands in it. */
  function FileReads(p: Module, where: map<nat, Stem>, f: Stem): Reads
    requires Placing(p, where)
  {
    Reads(set i, n | 0 <= i < |p| && FileOf(p, where, i) == f && n in p[i].refs.all :: n,
          set i, n | 0 <= i < |p| && FileOf(p, where, i) == f && n in p[i].refs.runtime :: n)
  }

  /** `reads_by_stem`: every file but `__init__.py`. */
  function SplitFiles(p: Module, where: map<nat, Stem>): ReadsByStem
    requires Placing(p, where)
  {
    map f | f in (set i | 0 <= i < |p| :: FileOf(p, where, i)) - {INIT} :: FileReads(p, where, f)
  }

  // ----- who owns a name

  /** `k` is the last item of its kind among the first `n` to bind `name`. */
  ghost predicate LastOf(p: Module, name: Name, declares: bool, k: int, n: nat)
    requires n <= |p|
  {
    && 0 <= k < n && p[k].IsDeclaration() == declares && name in p[k].Binds()
    && forall j :: k < j < n && p[j].IsDeclaration() == declares ==> name !in p[j].Binds()
  }

  ghost predicate SomeBinds(p: Module, name: Name, declares: bool, n: nat)
    requires n <= |p|
  {
    exists k :: 0 <= k < n && p[k].IsDeclaration() == declares && name in p[k].Binds()
  }

  /** The item whose file owns `name`: the last statement that binds it, or else the last declaration. */
  ghost predicate IsOwner(p: Module, name: Name, k: int) {
    LastOf(p, name, !SomeBinds(p, name, false, |p|), k, |p|)
  }

  ghost predicate OwnerMap(p: Module, where: map<nat, Stem>, owners: Owners)
    requires Placing(p, where)
  {
    && (forall n :: n in owners <==> BoundBy(p, n))
    && (forall n :: n in owners ==> exists k :: IsOwner(p, n, k) && FileOf(p, where, k) == owners[n])
  }

  /** What a loop over the items of one kind makes of a name's owner. */
  ghost predicate Entered(p: Module, where: map<nat, Stem>, before: Owners, owners: Owners, declares: bool, n: nat, name: Name)
    requires Placing(p, where) && n <= |p|
  {
    if SomeBinds(p, name, declares, n) then
      name in owners && exists k :: LastOf(p, name, declares, k, n) && FileOf(p, where, k) == owners[name]
    else (name in owners <==> name in before) && (name in before ==> name in owners && owners[name] == before[name])
  }

  ghost predicate AllEntered(p: Module, where: map<nat, Stem>, before: Owners, owners: Owners, declares: bool, n: nat)
    requires Placing(p, where) && n <= |p|
  {
    forall name :: Entered(p, where, before, owners, declares, n, name)
  }

  lemma OneMoreBinder(p: Module, declares: bool, n: nat, name: Name)
    requires n < |p|
    ensures p[n].IsDeclaration() == declares && name in p[n].Binds() ==> LastOf(p, name, declares, n, n + 1)
    ensures p[n].IsDeclaration() != declares || name !in p[n].Binds() ==>
      && (SomeBinds(p, name, declares, n + 1) <==> SomeBinds(p, name, declares, n))
      && forall k :: LastOf(p, name, declares, k, n) ==> LastOf(p, name, declares, k, n + 1)
  {
  }

  /** The owners after one more item. */
  lemma EnterItem(p: Module, where: map<nat, Stem>, before: Owners, owners: Owners, declares: bool, n: nat, names: set<Name>)
    requires Placing(p, where) && n < |p| && AllEntered(p, where, before, owners, declares, n)
    requires names == if p[n].IsDeclaration() == declares then p[n].Binds() else {}
    ensures AllEntered(p, where, before, owners + map m | m in names :: FileOf(p, where, n), declares, n + 1)
  {
    var after, next := owners + map m | m in names :: FileOf(p, where, n), n + 1;
    forall name
      ensures Entered(p, where, before, after, declares, next, name)
    {
      OneMoreBinder(p, declares, n, name);
      assert Entered(p, where, before, owners, declares, n, name);
      if name in names {
        assert LastOf(p, name, declares, n, n + 1);
        assert SomeBinds(p, name, declares, n + 1);
      }
    }
  }

  /** One of the two loops: the names of the declarations, or those of the statements over them. */
  method Enter(p: Module, where: map<nat, Stem>, before: Owners, declares: bool) returns (owners: Owners)
    requires Placing(p, where)
    ensures AllEntered(p, where, before, owners, declares, |p|)
  {
    owners := before;
    for i := 0 to |p|
      invariant AllEntered(p, where, before, owners, declares, i)
    {
      var names := if p[i].IsDeclaration() == declares then p[i].Binds() else {};
      EnterItem(p, where, before, owners, declares, i, names);
      owners := owners + map n | n in names :: FileOf(p, where, i);
    }
  }

  /** `_binding_stems`: the declarations, then each statement's names over them. */
  method BindingStems(p: Module, where: map<nat, Stem>) returns (owners: Owners)
    requires Placing(p, where)
    ensures OwnerMap(p, where, owners)
  {
    var declared := Enter(p, where, map[], true);
    owners := Enter(p, where, declared, false);
    forall n
      ensures n in owners <==> BoundBy(p, n)
      ensures n in owners ==> exists k :: IsOwner(p, n, k) && FileOf(p, where, k) == owners[n]
    {
      TwoLoops(p, where, declared, owners, n);
    }
  }

  lemma TwoLoops(p: Module, where: map<nat, Stem>, declared: Owners, owners: Owners, n: Name)
    requires Placing(p, where)
    requires Entered(p, where, map[], declared, true, |p|, n) && Entered(p, where, declared, owners, false, |p|, n)
    ensures n in owners <==> BoundBy(p, n)
    ensures n in owners ==> exists k :: IsOwner(p, n, k) && FileOf(p, where, k) == owners[n]
  {
    BoundEither(p, n);
    if n in owners {
      var k :| LastOf(p, n, !SomeBinds(p, n, false, |p|), k, |p|) && FileOf(p, where, k) == owners[n];
      assert IsOwner(p, n, k);
    }
  }

  lemma BoundEither(p: Module, n: Name)
    ensures BoundBy(p, n) <==> SomeBinds(p, n, true, |p|) || SomeBinds(p, n, false, |p|)
  {
    if BoundBy(p, n) {
      var i :| 0 <= i < |p| && n in p[i].Binds();
      assert SomeBinds(p, n, p[i].IsDeclaration(), |p|);
    }
  }

  // ----- the run of an import

  /** The names a file imports at its top: those it reads, another file owns, and no deferral moved. */
  function Header(p: Module, where: map<nat, Stem>, owners: Owners, d: Deferral, f: Stem): set<Name>
    requires Placing(p, where)
  {
    set n | n in Siblings(f, FileReads(p, where, f), owners) && n !in DeferredIn(d, f)
  }

  /** Of the items done, one of file `f` binds `n`. */
  ghost predicate Bound(p: Module, where: map<nat, Stem>, done: seq<nat>, f: Stem, n: Name)
    requires Placing(p, where)
  {
    exists j :: j in done && j < |p| && FileOf(p, where, j) == f && n in p[j].Binds()
  }

  /** `from .owner import n` works for each name at the top of `f`. */
  ghost predicate HeaderWorks(p: Module, where: map<nat, Stem>, owners: Owners, d: Deferral, done: seq<nat>, f: Stem)
    requires Placing(p, where)
  {
    forall n :: n in Header(p, where, owners, d, f) ==> n in owners && Bound(p, where, done, owners[n], n)
  }

  /** Code that is there, in the namespace of its file: what the file imported, and what its items bound so far. */
  ghost predicate Resolves(p: Module, where: map<nat, Stem>, owners: Owners, d: Deferral, done: seq<nat>, i: nat, l: Lookup)
    requires Placing(p, where) && l.code < |p|
  {
    var g := FileOf(p, where, l.code);
    && (l.code == i || l.code in done)
    && (l.name in Header(p, where, owners, d, g) || Bound(p, where, done, g, l.name))
  }

  ghost predicate ItemWorks(p: Module, where: map<nat, Stem>, owners: Owners, d: Deferral, ev: Lookups, done: seq<nat>, i: nat)
    requires Placing(p, where) && |ev| == |p| && i < |p|
  {
    forall l :: l in ev[i] ==> l.code < |p| && Resolves(p, where, owners, d, done, i, l)
  }

  /** The items executed once the files of `order` are imported. */
  function Schedule(p: Module, where: map<nat, Stem>, order: seq<Stem>): seq<nat>
    requires Placing(p, where)
  {
    if order == [] then []
    else Schedule(p, where, order[..|order| - 1]) + Rendered(p, where, order[|order| - 1])
  }

  ghost predicate FileWorks(p: Module, where: map<nat, Stem>, owners: Owners, d: Deferral, ev: Lookups, done: seq<nat>, f: Stem)
    requires Placing(p, where) && |ev| == |p|
  {
    var items := Rendered(p, where, f);
    && HeaderWorks(p, where, owners, d, done, f)
    && forall t :: 0 <= t < |items| ==> ItemAtWorks(p, where, owners, d, ev, done, items, t)
  }

  ghost predicate ItemAtWorks(p: Module, where: map<nat, Stem>, owners: Owners, d: Deferral, ev: Lookups, done: seq<nat>,
                              items: seq<nat>, t: nat)
    requires Placing(p, where) && |ev| == |p| && t < |items|
  {
    items[t] < |p| && ItemWorks(p, where, owners, d, ev, done + items[..t], items[t])
  }

  /** The package imports, file by file: every import statement finds its name, and every lookup the module made is
      made again and finds its own. */
  ghost predicate PackageImports(p: Module, where: map<nat, Stem>, owners: Owners, d: Deferral, order: seq<Stem>, ev: Lookups)
    requires Placing(p, where) && |ev| == |p|
  {
    order == []
    || (var n := |order| - 1;
        && PackageImports(p, where, owners, d, order[..n], ev)
        && FileWorks(p, where, owners, d, ev, Schedule(p, where, order[..n]), order[n]))
  }

  // ----- when it does

  /** A lookup of the `a`-th file's item `i`: its code is in an earlier file, or above in the same one, and in that
      case a name the file owns is bound above. */
  ghost predicate Found(p: Module, where: map<nat, Stem>, owners: Owners, order: seq<Stem>, a: nat, i: nat, l: Lookup)
    requires Placing(p, where) && a < |order| && i < |p| && l.code < |p| && l.name in owners
  {
    var g := FileOf(p, where, l.code);
    g in order[..a]
    || (&& g == order[a]
        && (l.code == i || Precedes(p, where, g, l.code, i))
        && (owners[l.name] == g ==> EarlierBinder(p, where, g, i, l.name)))
  }

  ghost predicate AllFoundIn(p: Module, where: map<nat, Stem>, owners: Owners, order: seq<Stem>, a: nat, i: nat, ev: Lookups)
    requires Placing(p, where) && |ev| == |p| && a < |order| && i < |p|
  {
    forall l :: l in ev[i] ==> l.code < |p| && l.name in owners && Found(p, where, owners, order, a, i, l)
  }

  ghost predicate EveryLookupFound(p: Module, where: map<nat, Stem>, owners: Owners, order: seq<Stem>, ev: Lookups)
    requires Placing(p, where) && |ev| == |p|
  {
    forall a, i :: 0 <= a < |order| && 0 <= i < |p| && FileOf(p, where, i) == order[a] ==>
      AllFoundIn(p, where, owners, order, a, i, ev)
  }

  /** What a plan hands to the run. */
  ghost predicate Planning(p: Module, where: map<nat, Stem>, owners: Owners, d: Deferral, order: seq<Stem>, hasFuture: bool) {
    && Placing(p, where) && OwnerMap(p, where, owners)
    && OnlyAnnotations(SplitFiles(p, where), owners, d) && (d == map[] || hasFuture)
    && Layered(ImportGraph(SplitFiles(p, where), owners, d), order) && INIT !in order
  }

  lemma {:induction false} ScheduleIs(p: Module, where: map<nat, Stem>, order: seq<Stem>, i: nat)
    requires Placing(p, where)
    ensures i in Schedule(p, where, order) <==> i < |p| && FileOf(p, where, i) in order
  {
    if order != [] {
      var n := |order| - 1;
      ScheduleIs(p, where, order[..n], i);
      RenderedIs(p, where, order[n]);
      assert order == order[..n] + [order[n]];
    }
  }

  lemma AfterIsNotBefore(p: Module, where: map<nat, Stem>, f: Stem, t: nat, s: nat)
    requires Placing(p, where) && t < |Rendered(p, where, f)| && s < |Rendered(p, where, f)|
    requires Rendered(p, where, f)[t] < |p| && Rendered(p, where, f)[s] < |p|
    requires Precedes(p, where, f, Rendered(p, where, f)[s], Rendered(p, where, f)[t])
    ensures s < t
  {
    if t < s {
      RenderedInOrder(p, where, f, t, s);
    }
  }

  lemma DoneIs(p: Module, where: map<nat, Stem>, f: Stem, t: nat, j: nat)
    requires Placing(p, where) && t < |Rendered(p, where, f)| && Rendered(p, where, f)[t] < |p|
    ensures j in Rendered(p, where, f)[..t]
       <==> j < |p| && FileOf(p, where, j) == f && Precedes(p, where, f, j, Rendered(p, where, f)[t])
  {
    RenderedIs(p, where, f);
    var r := Rendered(p, where, f);
    if j in r[..t] {
      var s :| 0 <= s < t && r[s] == j;
      assert Precedes(p, where, f, r[s], r[t]);
    }
    if j < |p| && FileOf(p, where, j) == f && Precedes(p, where, f, j, r[t]) {
      var s :| 0 <= s < |r| && r[s] == j;
      assert s < t by {
        AfterIsNotBefore(p, where, f, t, s);
      }
    }
  }

  /** Which items are done when the `t`-th of the `a`-th file runs. */
  lemma DoneBefore(p: Module, where: map<nat, Stem>, order: seq<Stem>, a: nat, t: nat, j: nat)
    requires Placing(p, where) && a < |order| && t < |Rendered(p, where, order[a])| && Rendered(p, where, order[a])[t] < |p|
    ensures j in Schedule(p, where, order[..a]) + Rendered(p, where, order[a])[..t]
       <==> j < |p| && (FileOf(p, where, j) in order[..a]
             || (FileOf(p, where, j) == order[a] && Precedes(p, where, order[a], j, Rendered(p, where, order[a])[t])))
  {
    ScheduleIs(p, where, order[..a], j);
    DoneIs(p, where, order[a], t, j);
  }

  lemma OwnerBinds(p: Module, where: map<nat, Stem>, owners: Owners, n: Name) returns (k: nat)
    requires Placing(p, where) && OwnerMap(p, where, owners) && n in owners
    ensures k < |p| && n in p[k].Binds() && FileOf(p, where, k) == owners[n]
  {
    var j :| IsOwner(p, n, j) && FileOf(p, where, j) == owners[n];
    k := j;
  }

  /** A name code looks up and another file owns is imported at the top. */
  lemma InHeader(p: Module, where: map<nat, Stem>, owners: Owners, d: Deferral, order: seq<Stem>, hasFuture: bool, l: Lookup)
    requires Planning(p, where, owners, d, order, hasFuture) && LooksUp(p, l, hasFuture)
    requires FileOf(p, where, l.code) in order
    ensures l.name in owners
    ensures var g := FileOf(p, where, l.code); l.name in Header(p, where, owners, d, g) <==> owners[l.name] != g
  {
    var g := FileOf(p, where, l.code);
    var files := SplitFiles(p, where);
    assert g in files && files[g] == FileReads(p, where, g);
    assert l.name in files[g].all;
    assert l.name !in DeferredIn(d, g) by {
      assert d != map[] ==> l.name in files[g].runtime;
    }
  }

  lemma ResolvesEarlierFile(p: Module, where: map<nat, Stem>, owners: Owners, d: Deferral, order: seq<Stem>, hasFuture: bool,
                            a: nat, t: nat, l: Lookup)
    requires Planning(p, where, owners, d, order, hasFuture) && LooksUp(p, l, hasFuture)
    requires a < |order| && t < |Rendered(p, where, order[a])| && Rendered(p, where, order[a])[t] < |p|
    requires FileOf(p, where, l.code) in order[..a]
    ensures var items := Rendered(p, where, order[a]);
      Resolves(p, where, owners, d, Schedule(p, where, order[..a]) + items[..t], items[t], l)
  {
    DoneBefore(p, where, order, a, t, l.code);
    InHeader(p, where, owners, d, order, hasFuture, l);
    if owners[l.name] == FileOf(p, where, l.code) {
      var k := OwnerBinds(p, where, owners, l.name);
      DoneBefore(p, where, order, a, t, k);
    }
  }

  lemma ResolvesSameFile(p: Module, where: map<nat, Stem>, owners: Owners, d: Deferral, order: seq<Stem>, hasFuture: bool,
                         a: nat, t: nat, l: Lookup)
    requires Planning(p, where, owners, d, order, hasFuture) && LooksUp(p, l, hasFuture)
    requires a < |order| && t < |Rendered(p, where, order[a])| && Rendered(p, where, order[a])[t] < |p|
    requires FileOf(p, where, l.code) == order[a] && order[a] !in order[..a] && l.name in owners
    ensures var items := Rendered(p, where, order[a]);
      Resolves(p, where, owners, d, Schedule(p, where, order[..a]) + items[..t], items[t], l)
      <==> Found(p, where, owners, order, a, items[t], l)
  {
    var f, i := order[a], Rendered(p, where, order[a])[t];
    var done := Schedule(p, where, order[..a]) + Rendered(p, where, f)[..t];
    DoneBefore(p, where, order, a, t, l.code);
    InHeader(p, where, owners, d, order, hasFuture, l);
    assert Bound(p, where, done, f, l.name) <==> EarlierBinder(p, where, f, i, l.name) by {
      forall j: nat | j < |p| && FileOf(p, where, j) == f
        ensures j in done <==> Precedes(p, where, f, j, i)
      {
        DoneBefore(p, where, order, a, t, j);
      }
    }
  }

  lemma ResolvesIffFound(p: Module, where: map<nat, Stem>, owners: Owners, d: Deferral, order: seq<Stem>, hasFuture: bool,
                         a: nat, t: nat, l: Lookup)
    requires Planning(p, where, owners, d, order, hasFuture) && LooksUp(p, l, hasFuture) && l.name in owners
    requires a < |order| && t < |Rendered(p, where, order[a])| && Rendered(p, where, order[a])[t] < |p|
    requires FileOf(p, where, Rendered(p, where, order[a])[t]) == order[a]
    ensures var items := Rendered(p, where, order[a]);
      Resolves(p, where, owners, d, Schedule(p, where, order[..a]) + items[..t], items[t], l)
      <==> Found(p, where, owners, order, a, items[t], l)
  {
    var g := FileOf(p, where, l.code);
    if g in order[..a] {
      ResolvesEarlierFile(p, where, owners, d, order, hasFuture, a, t, l);
    } else if g == order[a] {
      ResolvesSameFile(p, where, owners, d, order, hasFuture, a, t, l);
    } else {
      DoneBefore(p, where, order, a, t, l.code);
    }
  }

  /** The import statements of a plan always work. */
  lemma HeadersWork(p: Module, where: map<nat, Stem>, owners: Owners, d: Deferral, order: seq<Stem>, hasFuture: bool, a: nat)
    requires Planning(p, where, owners, d, order, hasFuture) && a < |order|
    ensures HeaderWorks(p, where, owners, d, Schedule(p, where, order[..a]), order[a])
  {
    var f := order[a];
    forall n | n in Header(p, where, owners, d, f)
      ensures n in owners && Bound(p, where, Schedule(p, where, order[..a]), owners[n], n)
    {
      assert f in SplitFiles(p, where) && n in Siblings(f, SplitFiles(p, where)[f], owners);
      assert Edge(ImportGraph(SplitFiles(p, where), owners, d), f, owners[n]);
      var k := OwnerBinds(p, where, owners, n);
      ScheduleIs(p, where, order[..a], k);
    }
  }

  ghost predicate FileFound(p: Module, where: map<nat, Stem>, owners: Owners, order: seq<Stem>, a: nat, ev: Lookups)
    requires Placing(p, where) && |ev| == |p| && a < |order|
  {
    forall i :: 0 <= i < |p| && FileOf(p, where, i) == order[a] ==> AllFoundIn(p, where, owners, order, a, i, ev)
  }

  lemma ItemWorksIff(p: Module, where: map<nat, Stem>, owners: Owners, d: Deferral, order: seq<Stem>, hasFuture: bool, ev: Lookups,
                     a: nat, t: nat)
    requires Planning(p, where, owners, d, order, hasFuture) && Runs(p, ev, hasFuture)
    requires a < |order| && t < |Rendered(p, where, order[a])| && Rendered(p, where, order[a])[t] < |p|
    requires FileOf(p, where, Rendered(p, where, order[a])[t]) == order[a]
    ensures var items := Rendered(p, where, order[a]);
      ItemWorks(p, where, owners, d, ev, Schedule(p, where, order[..a]) + items[..t], items[t])
      <==> AllFoundIn(p, where, owners, order, a, items[t], ev)
  {
    var i := Rendered(p, where, order[a])[t];
    forall l | l in ev[i]
      ensures l.code < |p| && l.name in owners
      ensures Resolves(p, where, owners, d, Schedule(p, where, order[..a]) + Rendered(p, where, order[a])[..t], i, l)
         <==> Found(p, where, owners, order, a, i, l)
    {
      assert LooksUp(p, l, hasFuture);
      ResolvesIffFound(p, where, owners, d, order, hasFuture, a, t, l);
    }
  }

  lemma FileWorksIff(p: Module, where: map<nat, Stem>, owners: Owners, d: Deferral, order: seq<Stem>, hasFuture: bool, ev: Lookups,
                     a: nat)
    requires Planning(p, where, owners, d, order, hasFuture) && Runs(p, ev, hasFuture) && a < |order|
    ensures FileWorks(p, where, owners, d, ev, Schedule(p, where, order[..a]), order[a]) <==> FileFound(p, where, owners, order, a, ev)
  {
    var items, done := Rendered(p, where, order[a]), Schedule(p, where, order[..a]);
    HeadersWork(p, where, owners, d, order, hasFuture, a);
    forall t: nat | t < |items|
      ensures items[t] < |p| && FileOf(p, where, items[t]) == order[a]
      ensures ItemAtWorks(p, where, owners, d, ev, done, items, t) <==> AllFoundIn(p, where, owners, order, a, items[t], ev)
    {
      RenderedAt(p, where, order[a], t);
      ItemWorksIff(p, where, owners, d, order, hasFuture, ev, a, t);
    }
    if FileWorks(p, where, owners, d, ev, done, order[a]) {
      forall i: nat | i < |p| && FileOf(p, where, i) == order[a]
        ensures AllFoundIn(p, where, owners, order, a, i, ev)
      {
        RenderedHolds(p, where, order[a], i);
        var t :| 0 <= t < |items| && items[t] == i;
        assert ItemAtWorks(p, where, owners, d, ev, done, items, t);
      }
    }
  }

  lemma FoundInPrefix(p: Module, where: map<nat, Stem>, owners: Owners, order: seq<Stem>, ev: Lookups)
    requires Placing(p, where) && |ev| == |p| && order != []
    ensures EveryLookupFound(p, where, owners, order, ev)
       <==> EveryLookupFound(p, where, owners, order[..|order| - 1], ev) && FileFound(p, where, owners, order, |order| - 1, ev)
  {
    var n := |order| - 1;
    forall a, i | 0 <= a < n && 0 <= i < |p|
      ensures AllFoundIn(p, where, owners, order, a, i, ev) <==> AllFoundIn(p, where, owners, order[..n], a, i, ev)
    {
      assert order[..n][..a] == order[..a];
    }
  }

  lemma LayeredPrefix(g: Graph, order: seq<Stem>, n: nat)
    requires Layered(g, order) && n <= |order|
    ensures Layered(g, order[..n])
  {
    forall i, t | 0 <= i < n && Edge(g, order[..n][i], t)
      ensures t in order[..n][..i]
    {
      assert order[..n][..i] == order[..i] && Edge(g, order[i], t);
    }
  }

  /** For every plan and every module, names bound twice included: the package imports if and only if every lookup made
      at import is one of code in an earlier file, or above in the same one, and finds the name bound above where the
      file owns it. */
  lemma {:induction false} PackageImportsIff(p: Module, where: map<nat, Stem>, owners: Owners, d: Deferral, order: seq<Stem>,
                                             hasFuture: bool, ev: Lookups)
    requires Planning(p, where, owners, d, order, hasFuture) && Runs(p, ev, hasFuture)
    ensures PackageImports(p, where, owners, d, order, ev) <==> EveryLookupFound(p, where, owners, order, ev)
    decreases |order|
  {
    if order != [] {
      var n := |order| - 1;
      LayeredPrefix(ImportGraph(SplitFiles(p, where), owners, d), order, n);
      PackageImportsIff(p, where, owners, d, order[..n], hasFuture, ev);
      FileWorksIff(p, where, owners, d, order, hasFuture, ev, n);
      FoundInPrefix(p, where, owners, order, ev);
    }
  }

  // ----- where each name is bound once

  /** Code that runs at import lies in a file imported before, or in the same one. */
  ghost predicate CallsGoBack(p: Module, where: map<nat, Stem>, order: seq<Stem>, ev: Lookups)
    requires Placing(p, where) && |ev| == |p|
  {
    forall a, i, l :: 0 <= a < |order| && 0 <= i < |p| && FileOf(p, where, i) == order[a] && l in ev[i] && l.code < |p| ==>
      FileOf(p, where, l.code) in order[..a + 1]
  }

  lemma OwnerIs(p: Module, where: map<nat, Stem>, owners: Owners, j: nat, n: Name)
    requires Placing(p, where) && BoundOnce(p) && OwnerMap(p, where, owners)
    requires j < |p| && n in p[j].Binds()
    ensures n in owners && owners[n] == FileOf(p, where, j)
  {
    assert BoundBy(p, n);
    var k := OwnerBinds(p, where, owners, n);
    assert k == j;
  }

  lemma FirstPlace(order: seq<Stem>, f: Stem) returns (a: nat)
    requires f in order
    ensures a < |order| && order[a] == f && f !in order[..a]
  {
    a := 0;
    while order[a] != f
      invariant a < |order| && f !in order[..a]
      invariant f in order[a..]
      decreases |order| - a
    {
      assert order[a..] == [order[a]] + order[a + 1..];
      a := a + 1;
    }
  }

  lemma FoundFileLoads(p: Module, where: map<nat, Stem>, owners: Owners, order: seq<Stem>, ev: Lookups, f: Stem)
    requires Placing(p, where) && OwnerMap(p, where, owners) && |ev| == |p| && BoundOnce(p)
    requires EveryLookupFound(p, where, owners, order, ev) && f in order
    ensures FileLoads(p, where, f, ev)
  {
    var a := FirstPlace(order, f);
    forall i, l | Within(p, where, f, ev, i, l)
      ensures l.code == i || Precedes(p, where, f, l.code, i)
      ensures forall j :: 0 <= j < |p| && FileOf(p, where, j) == f && l.name in p[j].Binds() ==> EarlierBinder(p, where, f, i, l.name)
    {
      assert AllFoundIn(p, where, owners, order, a, i, ev);
      assert Found(p, where, owners, order, a, i, l);
      forall j | 0 <= j < |p| && FileOf(p, where, j) == f && l.name in p[j].Binds()
        ensures EarlierBinder(p, where, f, i, l.name)
      {
        OwnerIs(p, where, owners, j, l.name);
      }
    }
  }

  lemma FileLoadsFound(p: Module, where: map<nat, Stem>, owners: Owners, order: seq<Stem>, hasFuture: bool, ev: Lookups,
                       a: nat, i: nat, l: Lookup)
    requires Placing(p, where) && OwnerMap(p, where, owners) && Runs(p, ev, hasFuture)
    requires a < |order| && i < |p| && FileOf(p, where, i) == order[a] && l in ev[i]
    requires FileLoads(p, where, order[a], ev) && LooksUp(p, l, hasFuture) && FileOf(p, where, l.code) in order[..a + 1]
    ensures l.name in owners && Found(p, where, owners, order, a, i, l)
  {
    var g := FileOf(p, where, l.code);
    assert order[..a + 1] == order[..a] + [order[a]];
    if g !in order[..a] {
      assert Within(p, where, g, ev, i, l);
      if owners[l.name] == g {
        var k := OwnerBinds(p, where, owners, l.name);
        assert EarlierBinder(p, where, g, i, l.name);
      }
    }
  }

  /** Where the module imported and binds each name once, the package imports if and only if code is only called in
      files imported before, and in no file is code of a later group, or a name of a trailing statement, used early. */
  lemma ImportsIffNothingEarly(p: Module, where: map<nat, Stem>, owners: Owners, d: Deferral, order: seq<Stem>,
                               hasFuture: bool, ev: Lookups)
    requires Planning(p, where, owners, d, order, hasFuture) && Runs(p, ev, hasFuture)
    requires BoundOnce(p) && ModuleLoads(p, ev)
    ensures PackageImports(p, where, owners, d, order, ev)
       <==> CallsGoBack(p, where, order, ev) && forall f :: f in order ==> NoEarlyUse(p, where, f, ev)
  {
    PackageImportsIff(p, where, owners, d, order, hasFuture, ev);
    if EveryLookupFound(p, where, owners, order, ev) {
      forall f | f in order
        ensures NoEarlyUse(p, where, f, ev)
      {
        FoundFileLoads(p, where, owners, order, ev, f);
        FileLoadsIff(p, where, f, ev, hasFuture);
      }
      FoundGoesBack(p, where, owners, order, ev);
    }
    if CallsGoBack(p, where, order, ev) && forall f :: f in order ==> NoEarlyUse(p, where, f, ev) {
      forall a, i | 0 <= a < |order| && 0 <= i < |p| && FileOf(p, where, i) == order[a]
        ensures AllFoundIn(p, where, owners, order, a, i, ev)
      {
        assert order[a] in order;
        FileLoadsIff(p, where, order[a], ev, hasFuture);
        forall l | l in ev[i]
          ensures l.code < |p| && l.name in owners && Found(p, where, owners, order, a, i, l)
        {
          assert LooksUp(p, l, hasFuture);
          FileLoadsFound(p, where, owners, order, hasFuture, ev, a, i, l);
        }
      }
    }
  }

  lemma FoundGoesBack(p: Module, where: map<nat, Stem>, owners: Owners, order: seq<Stem>, ev: Lookups)
    requires Placing(p, where) && |ev| == |p| && EveryLookupFound(p, where, owners, order, ev)
    ensures CallsGoBack(p, where, order, ev)
  {
    forall a, i, l | 0 <= a < |order| && 0 <= i < |p| && FileOf(p, where, i) == order[a] && l in ev[i] && l.code < |p|
      ensures FileOf(p, where, l.code) in order[..a + 1]
    {
      assert AllFoundIn(p, where, owners, order, a, i, ev);
      assert order[..a + 1] == order[..a] + [order[a]];
    }
  }
}
