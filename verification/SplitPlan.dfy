/** The plan of a split: its refusals, in their order, and what a plan guarantees (`plan_split` of
    `scripts/split_modules.py`). */
module SplitPlan {
  import opened ImportCycles
  import opened Placement
  import opened PackageImport

  datatype Reason = ClassRebinds | PublicRebound | BorrowedRebound | ImportCycle | NeedsFutureImport

  datatype Verdict = Passes | Fails(reason: Reason)

  datatype Plan = Planned(where: map<nat, Stem>, owners: Owners, deferred: Deferral) | Refusal(reason: Reason)

  /** The public names: without a leading underscore, or listed in `__all__`. */
  predicate IsPublic(n: Name, dunderAll: set<Name>) {
    n in dunderAll || n == "" || n[0] != '_'
  }

  /** A public name of the module is rebound with `global`. */
  ghost predicate RebindsPublic(p: Module, dunderAll: set<Name>) {
    exists n :: n in Rebound(p) && BoundBy(p, n) && IsPublic(n, dunderAll)
  }

  /** Some file reads a rebound name that another file holds. */
  ghost predicate Borrows(p: Module, where: map<nat, Stem>, owners: Owners)
    requires Placing(p, where)
  {
    exists f, n :: f in AllFiles(p, where) && n in FileReads(p, where, f).all * Rebound(p) && Holder(owners, n) != f
  }

  function AllFiles(p: Module, where: map<nat, Stem>): set<Stem>
    requires Placing(p, where)
  {
    (set i | 0 <= i < |p| :: FileOf(p, where, i)) + {INIT}
  }

  /** A name only a `global` binds counts as held with the functions. */
  function Holder(owners: Owners, n: Name): Stem {
    if n in owners then owners[n] else FUNCTIONS
  }

  /** Placement and owners, where no class rebinds. */
  ghost predicate PlacedByRule(p: Module, where: map<nat, Stem>, owners: Owners) {
    FollowsRule(p, where) && Placing(p, where) && OwnerMap(p, where, owners)
  }

  ghost predicate NeedsDeferral(p: Module, where: map<nat, Stem>, owners: Owners)
    requires Placing(p, where)
  {
    !Acyclic(ImportGraph(SplitFiles(p, where), owners, map[]))
  }

  /** The first test that fails. */
  ghost function FirstRefusal(p: Module, where: map<nat, Stem>, owners: Owners, dunderAll: set<Name>, hasFuture: bool): Verdict
    requires NoClassRebinds(p) ==> Placing(p, where)
  {
    if !NoClassRebinds(p) then Fails(ClassRebinds)
    else if RebindsPublic(p, dunderAll) then Fails(PublicRebound)
    else if Borrows(p, where, owners) then Fails(BorrowedRebound)
    else if !Acyclic(RuntimeGraph(SplitFiles(p, where), owners)) then Fails(ImportCycle)
    else if NeedsDeferral(p, where, owners) && !hasFuture then Fails(NeedsFutureImport)
    else Passes
  }

  lemma InitHoldsNothing(p: Module, where: map<nat, Stem>, owners: Owners, d: Deferral)
    requires Splittable(p) && PlacedByRule(p, where, owners)
    ensures INIT !in Nodes(ImportGraph(SplitFiles(p, where), owners, d))
  {
    forall n | n in owners
      ensures owners[n] != INIT
    {
      var i := OwnerBinds(p, where, owners, n);
      NotInit(p, where, i);
    }
  }

  lemma NotInit(p: Module, where: map<nat, Stem>, i: nat)
    requires Splittable(p) && Placing(p, where) && FollowsRule(p, where) && i < |p| && p[i].Binds() != {}
    ensures FileOf(p, where, i) != INIT
  {
    assert |FUNCTIONS| == 10 && |SHARED| == 7 && |INIT| == 8;
    if p[i].Statement? {
      assert Places(p, i, where[i]);
    }
  }

  /** The tests of names rebound with `global`. */
  method CheckRebound(p: Module, where: map<nat, Stem>, owners: Owners, rebound: set<Name>, dunderAll: set<Name>)
    returns (r: Verdict)
    requires PlacedByRule(p, where, owners) && rebound == Rebound(p)
    ensures r == if RebindsPublic(p, dunderAll) then Fails(PublicRebound)
                 else if Borrows(p, where, owners) then Fails(BorrowedRebound) else Passes
  {
    if n :| n in rebound && n in owners && IsPublic(n, dunderAll) {
      return Fails(PublicRebound);
    }
    if f, n :| f in AllFiles(p, where) && n in FileReads(p, where, f).all * rebound && Holder(owners, n) != f {
      return Fails(BorrowedRebound);
    }
    return Passes;
  }

  /** In whatever order the files are imported, each behind those it imports, the run succeeds exactly where every
      lookup is found. */
  ghost predicate ImportsWhereFound(p: Module, where: map<nat, Stem>, owners: Owners, d: Deferral, hasFuture: bool)
    requires Placing(p, where)
  {
    forall order, ev :: Layered(ImportGraph(SplitFiles(p, where), owners, d), order) && INIT !in order && Runs(p, ev, hasFuture) ==>
      (PackageImports(p, where, owners, d, order, ev) <==> EveryLookupFound(p, where, owners, order, ev))
  }

  lemma PlanRuns(p: Module, where: map<nat, Stem>, owners: Owners, d: Deferral, order: seq<Stem>, hasFuture: bool)
    requires Planning(p, where, owners, d, order, hasFuture)
    ensures ImportsWhereFound(p, where, owners, d, hasFuture)
  {
    forall order, ev | Layered(ImportGraph(SplitFiles(p, where), owners, d), order) && INIT !in order && Runs(p, ev, hasFuture)
      ensures PackageImports(p, where, owners, d, order, ev) <==> EveryLookupFound(p, where, owners, order, ev)
    {
      PackageImportsIff(p, where, owners, d, order, hasFuture, ev);
    }
  }

  /** `plan_split`: it refuses exactly as the first of its tests that fails says, and what it plans is an acyclic
      package, which in every order its files can be imported in, `order` among them, imports exactly where every lookup
      is found. */
  method PlanSplit(p: Module, dunderAll: set<Name>, hasFuture: bool)
    returns (plan: Plan, ghost where: map<nat, Stem>, ghost owners: Owners, ghost order: seq<Stem>)
    requires Splittable(p)
    ensures NoClassRebinds(p) ==> PlacedByRule(p, where, owners)
    ensures FirstRefusal(p, where, owners, dunderAll, hasFuture) == if plan.Planned? then Passes else Fails(plan.reason)
    ensures plan == Refusal(ClassRebinds) <==> !NoClassRebinds(p)
    ensures plan == Refusal(PublicRebound) <==> NoClassRebinds(p) && RebindsPublic(p, dunderAll)
    ensures plan.Planned? ==>
      && PlacedByRule(p, plan.where, plan.owners)
      && FirstRefusal(p, plan.where, plan.owners, dunderAll, hasFuture) == Passes
      && Acyclic(ImportGraph(SplitFiles(p, plan.where), plan.owners, plan.deferred))
    ensures plan.Planned? ==>
      && plan.where == where && plan.owners == owners && Planning(p, where, owners, plan.deferred, order, hasFuture)
      && SplitFiles(p, where).Keys <= Elements(order)
    ensures plan.Planned? ==> ImportsWhereFound(p, plan.where, plan.owners, plan.deferred, hasFuture)
  {
    where, owners, order := map[], map[], [];
    var outcome := AssignOwners(p);
    if outcome.RefusedRebinding? {
      plan := Refusal(ClassRebinds);
      return;
    }
    var stems := BindingStems(p, outcome.where);
    where, owners := outcome.where, stems;
    var verdict := CheckRebound(p, outcome.where, stems, outcome.rebound, dunderAll);
    if verdict.Fails? {
      plan := Refusal(verdict.reason);
      return;
    }
    var choice;
    choice, order := ChooseDeferred(SplitFiles(p, outcome.where), stems);
    if choice.Refused? {
      plan := Refusal(ImportCycle);
    } else if choice.names != map[] && !hasFuture {
      plan := Refusal(NeedsFutureImport);
    } else {
      plan := Planned(outcome.where, stems, choice.names);
      InitHoldsNothing(p, where, owners, choice.names);
      assert INIT !in Elements(order);
      PlanRuns(p, where, owners, choice.names, order, hasFuture);
    }
  }

  // ----- modules that need no imports between their files

  /** Every name an item reads is owned by the item's own file, or not by the module at all. */
  ghost predicate SelfContained(p: Module, where: map<nat, Stem>, owners: Owners)
    requires Placing(p, where)
  {
    forall i :: 0 <= i < |p| ==> OwnsReads(owners, FileOf(p, where, i), p[i].refs)
  }

  ghost predicate OwnsReads(owners: Owners, f: Stem, refs: Refs) {
    forall n :: n in refs.all && n in owners ==> owners[n] == f
  }

  lemma ReadsAreOwned(p: Module, where: map<nat, Stem>, owners: Owners, f: Stem)
    requires Placing(p, where) && SelfContained(p, where, owners)
    ensures forall n :: n in FileReads(p, where, f).all && n in owners ==> owners[n] == f
  {
    forall n | n in FileReads(p, where, f).all && n in owners
      ensures owners[n] == f
    {
      var i :| 0 <= i < |p| && FileOf(p, where, i) == f && n in p[i].refs.all;
      assert OwnsReads(owners, FileOf(p, where, i), p[i].refs);
    }
  }

  lemma NoEdgeIsAcyclic(g: Graph)
    requires forall s :: s in g ==> g[s] == {}
    ensures Acyclic(g)
  {
    forall c: seq<Stem>
      ensures !IsCycle(g, c)
    {
      if c != [] {
        assert !Edge(g, c[0], Next(c, 0));
      }
    }
  }

  /** Of such a module, with private names rebound only, a split is never refused. */
  lemma SelfContainedIsPlanned(p: Module, where: map<nat, Stem>, owners: Owners, dunderAll: set<Name>, hasFuture: bool)
    requires Placing(p, where) && SelfContained(p, where, owners)
    requires NoClassRebinds(p) && !RebindsPublic(p, dunderAll) && forall n :: n in Rebound(p) ==> n in owners
    ensures FirstRefusal(p, where, owners, dunderAll, hasFuture) == Passes
  {
    var files := SplitFiles(p, where);
    forall f | f in files
      ensures Siblings(f, files[f], owners) == map[]
    {
      ReadsAreOwned(p, where, owners, f);
    }
    NoEdgeIsAcyclic(RuntimeGraph(files, owners));
    NoEdgeIsAcyclic(ImportGraph(files, owners, map[]));
    forall f, n | n in FileReads(p, where, f).all * Rebound(p)
      ensures Holder(owners, n) == f
    {
      ReadsAreOwned(p, where, owners, f);
    }
  }
}
