/** Three modules that import, pass every test of a split, and whose package does not import
    (`scripts/split_modules.py`). */
module SplitBreaks {
  import opened ImportCycles
  import opened Placement
  import opened PackageImport
  import opened SplitPlan

  function Reading(names: set<Name>, rebound: set<Name>): Refs {
    Refs(names, names, rebound)
  }

  predicate IsPrivate(n: Name, dunderAll: set<Name>) {
    n != "" && n[0] == '_' && n !in dunderAll
  }

  /** A module of two classes, in `a.py` and `b.py`. */
  lemma TwoClassesSplit(p: Module)
    requires |p| >= 2 && p[0].Class? && p[1].Class? && p[0].stem == "a" && p[1].stem == "b"
    requires forall i :: 0 <= i < |p| ==> (p[i].Class? ==> i < 2 && p[i].refs.rebound == {}) && p[i].refs.runtime <= p[i].refs.all
    ensures Splittable(p) && NoClassRebinds(p)
  {
    assert p[0].stem[0] == 'a' && p[1].stem[0] == 'b';
    assert FUNCTIONS[0] == '_' && SHARED[0] == '_' && INIT[0] == '_';
  }

  /** Of all items, declaration `d` and its file's alone read what statement `i` binds. */
  ghost predicate SoleReader(p: Module, i: nat, d: nat)
    requires i < |p| && d < |p|
  {
    && p[i].Statement? && p[i].targets != [] && !ReadByAnother(p, i)
    && p[d].IsDeclaration() && p[d].refs.all * p[i].Binds() != {}
    && forall j :: 0 <= j < |p| && p[j].IsDeclaration() && p[j].refs.all * p[i].Binds() != {} ==> p[j].DeclaredIn() == p[d].DeclaredIn()
  }

  lemma SoleReaderOwns(p: Module, i: nat, d: nat)
    requires i < |p| && d < |p| && SoleReader(p, i, d)
    ensures OwnersOf(p, i) == {p[d].DeclaredIn()}
  {
    var s, names := p[d].DeclaredIn(), p[i].Binds();
    var n :| n in p[d].refs.all * names;
    assert n in DeclarationReads(p, s) * names;
    assert s in DeclarationStems(p);
    forall t | t in DeclarationStems(p) && DeclarationReads(p, t) * names != {}
      ensures t == s
    {
      var m :| m in DeclarationReads(p, t) * names;
      var j :| 0 <= j < |p| && p[j].IsDeclaration() && p[j].DeclaredIn() == t && m in p[j].refs.all;
      assert m in p[j].refs.all * names;
    }
  }

  /** It goes to that file. */
  lemma GoesToReader(p: Module, where: map<nat, Stem>, i: nat, d: nat)
    requires i < |p| && d < |p| && SoleReader(p, i, d) && FollowsRule(p, where) && Rebound(p) * p[i].Binds() == {}
    ensures i in where && where[i] == p[d].DeclaredIn()
  {
    SoleReaderOwns(p, i, d);
    assert Places(p, i, where[i]);
  }

  /** A lookup of a name its own file owns, bound nowhere above, stops the import. */
  lemma LostLookup(p: Module, where: map<nat, Stem>, owners: Owners, hasFuture: bool, ev: Lookups, i: nat, l: Lookup)
    requires Placing(p, where) && Runs(p, ev, hasFuture)
    requires i < |p| && l in ev[i] && l.code < |p| && FileOf(p, where, l.code) == FileOf(p, where, i)
    requires l.name in owners && owners[l.name] == FileOf(p, where, i) && !EarlierBinder(p, where, FileOf(p, where, i), i, l.name)
    ensures NeverImports(p, where, owners, hasFuture, ev, FileOf(p, where, i))
  {
    var f := FileOf(p, where, i);
    forall d, order | Planning(p, where, owners, d, order, hasFuture) && f in order
      ensures !PackageImports(p, where, owners, d, order, ev)
    {
      PackageImportsIff(p, where, owners, d, order, hasFuture, ev);
      var a := FirstPlace(order, f);
      assert AllFoundIn(p, where, owners, order, a, i, ev) ==> Found(p, where, owners, order, a, i, l);
    }
  }

  /** However the imports are deferred and ordered, a package with file `f` does not import. */
  ghost predicate NeverImports(p: Module, where: map<nat, Stem>, owners: Owners, hasFuture: bool, ev: Lookups, f: Stem)
    requires Placing(p, where) && |ev| == |p|
  {
    forall d, order :: Planning(p, where, owners, d, order, hasFuture) && f in order ==>
      !PackageImports(p, where, owners, d, order, ev)
  }

  /** A split of the module gets through every test, with file `f` in it. */
  ghost predicate Accepted(p: Module, where: map<nat, Stem>, owners: Owners, dunderAll: set<Name>, hasFuture: bool, f: Stem) {
    && Splittable(p) && NoClassRebinds(p) && Placing(p, where)
    && FirstRefusal(p, where, owners, dunderAll, hasFuture) == Passes
    && f in SplitFiles(p, where)
  }

  /** The module imports, and the package with file `f` does not. */
  ghost predicate Breaks(p: Module, where: map<nat, Stem>, owners: Owners, hasFuture: bool, ev: Lookups, f: Stem)
    requires Placing(p, where)
  {
    Runs(p, ev, hasFuture) && ModuleLoads(p, ev) && NeverImports(p, where, owners, hasFuture, ev, f)
  }

  lemma HoldsFile(p: Module, where: map<nat, Stem>, i: nat)
    requires Placing(p, where) && i < |p| && FileOf(p, where, i) != INIT
    ensures FileOf(p, where, i) in SplitFiles(p, where)
  {
  }

  lemma ContainedIsAccepted(p: Module, where: map<nat, Stem>, owners: Owners, dunderAll: set<Name>, hasFuture: bool, i: nat)
    requires Splittable(p) && NoClassRebinds(p) && Placing(p, where) && SelfContained(p, where, owners)
    requires forall n :: n in Rebound(p) ==> n in owners && !IsPublic(n, dunderAll)
    requires i < |p| && FileOf(p, where, i) != INIT
    ensures Accepted(p, where, owners, dunderAll, hasFuture, FileOf(p, where, i))
  {
    SelfContainedIsPlanned(p, where, owners, dunderAll, hasFuture);
    HoldsFile(p, where, i);
  }

  // ----- code that is called

  predicate Apart(names: seq<Name>) {
    (forall i, j :: 0 <= i < j < |names| ==> names[i] != names[j]) && "A" !in names && "B" !in names
  }

  /** `def base()`, `constant = base()`, `def deco(f)` with `constant` in its body, and `@deco def g()`. */
  function DecoModule(base: Name, constant: Name, deco: Name, g: Name): Module {
    [Class("A", "a", Reading({}, {})), Class("B", "b", Reading({}, {})), Function(base, Reading({}, {})),
     Statement([constant], Reading({base}, {})), Function(deco, Reading({constant}, {})), Function(g, Reading({deco}, {}))]
  }

  function DecoLookups(base: Name, constant: Name, deco: Name): Lookups {
    [{}, {}, {}, {Lookup(3, base)}, {}, {Lookup(5, deco), Lookup(4, constant)}]
  }

  /** What the proofs use of it. */
  ghost predicate IsDeco(p: Module, base: Name, constant: Name, deco: Name, g: Name) {
    && |p| == 6 && p[0].Class? && p[1].Class? && p[2].Function? && p[3].Statement? && p[4].Function? && p[5].Function?
    && p[0].stem == "a" && p[1].stem == "b" && p[2].name == base && p[3].targets == [constant]
    && p[0].Binds() == {"A"} && p[1].Binds() == {"B"} && p[2].Binds() == {base} && p[3].Binds() == {constant}
    && p[4].Binds() == {deco} && p[5].Binds() == {g}
    && p[0].refs == p[1].refs == p[2].refs == Reading({}, {}) && p[3].refs == Reading({base}, {})
    && p[4].refs == Reading({constant}, {}) && p[5].refs == Reading({deco}, {})
    && BoundOnce(p) && Rebound(p) == {}
    && base != constant && base != deco && constant != deco
  }

  lemma DecoIs(base: Name, constant: Name, deco: Name, g: Name)
    requires Apart([base, constant, deco, g])
    ensures IsDeco(DecoModule(base, constant, deco, g), base, constant, deco, g)
  {
    var names := [base, constant, deco, g];
    assert base == names[0] && constant == names[1] && deco == names[2] && g == names[3];
    var p := DecoModule(base, constant, deco, g);
    assert p[3].targets[0] == constant;
    assert "A"[0] == 'A' && "B"[0] == 'B';
  }

  lemma DecoPlace(p: Module, base: Name, constant: Name, deco: Name, g: Name, where: map<nat, Stem>)
    requires IsDeco(p, base, constant, deco, g) && FollowsRule(p, where)
    ensures Placing(p, where) && where[3] == FUNCTIONS
  {
    DecoReader(p, base, constant, deco, g);
    GoesToReader(p, where, 3, 4);
  }

  lemma DecoReader(p: Module, base: Name, constant: Name, deco: Name, g: Name)
    requires IsDeco(p, base, constant, deco, g)
    ensures SoleReader(p, 3, 4)
  {
    assert constant in p[4].refs.all * p[3].Binds();
  }

  lemma DecoSlot(p: Module, base: Name, constant: Name, deco: Name, g: Name, where: map<nat, Stem>)
    requires IsDeco(p, base, constant, deco, g) && Placing(p, where) && where[3] == FUNCTIONS
    ensures SlotOf(p, where, FUNCTIONS, 3) == After
  {
    assert p[2].IsDeclaration() && p[2].DeclaredIn() == FUNCTIONS && p[2].name == base;
    assert base in p[3].refs.all * DeclaredNames(p, FUNCTIONS);
  }

  lemma DecoOwners(p: Module, base: Name, constant: Name, deco: Name, g: Name, where: map<nat, Stem>, owners: Owners)
    requires IsDeco(p, base, constant, deco, g) && PlacedByRule(p, where, owners) && where[3] == FUNCTIONS
    ensures base in owners && constant in owners && deco in owners
    ensures owners[base] == owners[constant] == owners[deco] == FUNCTIONS
  {
    OwnerIs(p, where, owners, 2, base);
    OwnerIs(p, where, owners, 3, constant);
    OwnerIs(p, where, owners, 4, deco);
  }

  lemma DecoLoads(p: Module, base: Name, constant: Name, deco: Name, g: Name, hasFuture: bool)
    requires IsDeco(p, base, constant, deco, g)
    ensures var ev := DecoLookups(base, constant, deco); Runs(p, ev, hasFuture) && ModuleLoads(p, ev)
  {
    assert base in p[2].Binds() && constant in p[3].Binds() && deco in p[4].Binds();
  }

  lemma DecoIsContained(p: Module, base: Name, constant: Name, deco: Name, g: Name, where: map<nat, Stem>, owners: Owners)
    requires IsDeco(p, base, constant, deco, g) && Placing(p, where) && where[3] == FUNCTIONS
    requires base in owners && constant in owners && deco in owners
    requires owners[base] == owners[constant] == owners[deco] == FUNCTIONS
    ensures SelfContained(p, where, owners)
  {
    forall i | 0 <= i < |p|
      ensures OwnsReads(owners, FileOf(p, where, i), p[i].refs)
    {
      if i >= 3 {
        assert FileOf(p, where, i) == FUNCTIONS;
      } else {
        assert p[i].refs.all == {};
      }
    }
  }

  lemma DecoIsPlaced(p: Module, base: Name, constant: Name, deco: Name, g: Name, where: map<nat, Stem>, owners: Owners)
    requires IsDeco(p, base, constant, deco, g) && PlacedByRule(p, where, owners)
    ensures Placing(p, where) && where[3] == FUNCTIONS && SlotOf(p, where, FUNCTIONS, 3) == After
    ensures base in owners && constant in owners && deco in owners
    ensures owners[base] == owners[constant] == owners[deco] == FUNCTIONS
  {
    DecoPlace(p, base, constant, deco, g, where);
    DecoSlot(p, base, constant, deco, g, where);
    DecoOwners(p, base, constant, deco, g, where, owners);
  }

  lemma DecoIsAccepted(p: Module, base: Name, constant: Name, deco: Name, g: Name, where: map<nat, Stem>, owners: Owners,
                       dunderAll: set<Name>, hasFuture: bool)
    requires IsDeco(p, base, constant, deco, g) && Placing(p, where) && SelfContained(p, where, owners)
    ensures Accepted(p, where, owners, dunderAll, hasFuture, FUNCTIONS)
  {
    TwoClassesSplit(p);
    assert FileOf(p, where, 5) == FUNCTIONS && |FUNCTIONS| != |INIT|;
    ContainedIsAccepted(p, where, owners, dunderAll, hasFuture, 5);
  }

  /** A decorator that reads a constant computed by a function: all land in `_functions.py`, with the constant below
      the function it decorates. */
  lemma DecoModuleBreaks(base: Name, constant: Name, deco: Name, g: Name, where: map<nat, Stem>, owners: Owners,
                         dunderAll: set<Name>, hasFuture: bool)
    requires Apart([base, constant, deco, g]) && PlacedByRule(DecoModule(base, constant, deco, g), where, owners)
    ensures BoundOnce(DecoModule(base, constant, deco, g)) && Rebound(DecoModule(base, constant, deco, g)) == {}
    ensures Accepted(DecoModule(base, constant, deco, g), where, owners, dunderAll, hasFuture, FUNCTIONS)
    ensures Breaks(DecoModule(base, constant, deco, g), where, owners, hasFuture, DecoLookups(base, constant, deco), FUNCTIONS)
  {
    var p := DecoModule(base, constant, deco, g);
    DecoIs(base, constant, deco, g);
    DecoIsPlaced(p, base, constant, deco, g, where, owners);
    DecoIsContained(p, base, constant, deco, g, where, owners);
    DecoIsAccepted(p, base, constant, deco, g, where, owners, dunderAll, hasFuture);
    DecoLoads(p, base, constant, deco, g, hasFuture);
    DecoIsLost(p, base, constant, deco, g, where, owners, hasFuture);
  }

  lemma DecoIsLost(p: Module, base: Name, constant: Name, deco: Name, g: Name, where: map<nat, Stem>, owners: Owners,
                   hasFuture: bool)
    requires IsDeco(p, base, constant, deco, g) && Placing(p, where) && SlotOf(p, where, FUNCTIONS, 3) == After
    requires Runs(p, DecoLookups(base, constant, deco), hasFuture) && constant in owners && owners[constant] == FUNCTIONS
    ensures NeverImports(p, where, owners, hasFuture, DecoLookups(base, constant, deco), FUNCTIONS)
  {
    forall k | 0 <= k < |p| && constant in p[k].Binds()
      ensures k == 3
    {
      assert constant in p[3].Binds();
    }
    assert SlotOf(p, where, FUNCTIONS, 5) == Declared && FileOf(p, where, 4) == FUNCTIONS;
    LostLookup(p, where, owners, hasFuture, DecoLookups(base, constant, deco), 5, Lookup(4, constant));
  }

  // ----- a name rebound with `global`

  /** The function `f` rebinds `memo` and reads `other`; then `memo = f()` and `other = memo`. */
  function MemoModule(f: Name, memo: Name, other: Name): Module {
    [Class("A", "a", Reading({}, {})), Class("B", "b", Reading({}, {})), Function(f, Reading({memo, other}, {memo})),
     Statement([memo], Reading({f}, {})), Statement([other], Reading({memo}, {}))]
  }

  function MemoLookups(f: Name, memo: Name): Lookups {
    [{}, {}, {}, {Lookup(3, f)}, {Lookup(4, memo)}]
  }

  ghost predicate IsMemo(p: Module, f: Name, memo: Name, other: Name) {
    && |p| == 5 && p[0].Class? && p[1].Class? && p[2].Function? && p[3].Statement? && p[4].Statement?
    && p[0].stem == "a" && p[1].stem == "b" && p[2].name == f && p[3].targets == [memo] && p[4].targets == [other]
    && p[0].Binds() == {"A"} && p[1].Binds() == {"B"} && p[2].Binds() == {f} && p[3].Binds() == {memo} && p[4].Binds() == {other}
    && p[0].refs == p[1].refs == Reading({}, {}) && p[2].refs == Reading({memo, other}, {memo})
    && p[3].refs == Reading({f}, {}) && p[4].refs == Reading({memo}, {})
    && BoundOnce(p) && Rebound(p) == {memo}
    && f != memo && f != other && memo != other
  }

  lemma MemoIs(f: Name, memo: Name, other: Name)
    requires Apart([f, memo, other])
    ensures IsMemo(MemoModule(f, memo, other), f, memo, other)
  {
    var names := [f, memo, other];
    assert f == names[0] && memo == names[1] && other == names[2];
    var p := MemoModule(f, memo, other);
    assert p[3].targets[0] == memo && p[4].targets[0] == other;
    assert "A"[0] == 'A' && "B"[0] == 'B';
    assert p[2].Function? && memo in p[2].refs.rebound;
  }

  lemma MemoPlace(p: Module, f: Name, memo: Name, other: Name, where: map<nat, Stem>)
    requires IsMemo(p, f, memo, other) && FollowsRule(p, where)
    ensures Placing(p, where) && where[3] == FUNCTIONS && where[4] == FUNCTIONS
  {
    assert Places(p, 3, where[3]) && memo in Rebound(p) * p[3].Binds();
    MemoReader(p, f, memo, other);
    GoesToReader(p, where, 4, 2);
  }

  lemma MemoReader(p: Module, f: Name, memo: Name, other: Name)
    requires IsMemo(p, f, memo, other)
    ensures SoleReader(p, 4, 2)
  {
    assert other in p[2].refs.all * p[4].Binds();
  }

  lemma MemoSlots(p: Module, f: Name, memo: Name, other: Name, where: map<nat, Stem>)
    requires IsMemo(p, f, memo, other) && Placing(p, where) && where[3] == FUNCTIONS && where[4] == FUNCTIONS
    ensures SlotOf(p, where, FUNCTIONS, 3) == After && SlotOf(p, where, FUNCTIONS, 4) == Before
  {
    assert p[2].IsDeclaration() && p[2].DeclaredIn() == FUNCTIONS && p[2].name == f;
    assert f in p[3].refs.all * DeclaredNames(p, FUNCTIONS);
    assert |FUNCTIONS| == 10 && |"a"| == 1 && |"b"| == 1;
    assert DeclaredNames(p, FUNCTIONS) == {f};
  }

  lemma MemoOwners(p: Module, f: Name, memo: Name, other: Name, where: map<nat, Stem>, owners: Owners)
    requires IsMemo(p, f, memo, other) && PlacedByRule(p, where, owners) && where[3] == FUNCTIONS && where[4] == FUNCTIONS
    ensures f in owners && memo in owners && other in owners
    ensures owners[f] == owners[memo] == owners[other] == FUNCTIONS
  {
    OwnerIs(p, where, owners, 2, f);
    OwnerIs(p, where, owners, 3, memo);
    OwnerIs(p, where, owners, 4, other);
  }

  lemma MemoIsPlaced(p: Module, f: Name, memo: Name, other: Name, where: map<nat, Stem>, owners: Owners)
    requires IsMemo(p, f, memo, other) && PlacedByRule(p, where, owners)
    ensures Placing(p, where) && where[3] == FUNCTIONS && where[4] == FUNCTIONS
    ensures SlotOf(p, where, FUNCTIONS, 3) == After && SlotOf(p, where, FUNCTIONS, 4) == Before
    ensures f in owners && memo in owners && other in owners
    ensures owners[f] == owners[memo] == owners[other] == FUNCTIONS
  {
    MemoPlace(p, f, memo, other, where);
    MemoSlots(p, f, memo, other, where);
    MemoOwners(p, f, memo, other, where, owners);
  }

  lemma MemoLoads(p: Module, f: Name, memo: Name, other: Name, hasFuture: bool)
    requires IsMemo(p, f, memo, other)
    ensures Runs(p, MemoLookups(f, memo), hasFuture) && ModuleLoads(p, MemoLookups(f, memo))
  {
    assert f in p[2].Binds() && memo in p[3].Binds();
  }

  lemma MemoIsContained(p: Module, f: Name, memo: Name, other: Name, where: map<nat, Stem>, owners: Owners)
    requires IsMemo(p, f, memo, other) && Placing(p, where) && where[3] == FUNCTIONS && where[4] == FUNCTIONS
    requires f in owners && memo in owners && other in owners
    requires owners[f] == owners[memo] == owners[other] == FUNCTIONS
    ensures SelfContained(p, where, owners)
  {
    forall i | 0 <= i < |p|
      ensures OwnsReads(owners, FileOf(p, where, i), p[i].refs)
    {
      if i >= 2 {
        assert FileOf(p, where, i) == FUNCTIONS;
      } else {
        assert p[i].refs.all == {};
      }
    }
  }

  lemma MemoIsAccepted(p: Module, f: Name, memo: Name, other: Name, where: map<nat, Stem>, owners: Owners,
                       dunderAll: set<Name>, hasFuture: bool)
    requires IsMemo(p, f, memo, other) && Placing(p, where) && SelfContained(p, where, owners) && where[4] == FUNCTIONS
    requires IsPrivate(memo, dunderAll) && memo in owners
    ensures Accepted(p, where, owners, dunderAll, hasFuture, FUNCTIONS)
  {
    TwoClassesSplit(p);
    assert FileOf(p, where, 4) == FUNCTIONS && |FUNCTIONS| != |INIT|;
    ContainedIsAccepted(p, where, owners, dunderAll, hasFuture, 4);
  }

  lemma MemoIsLost(p: Module, f: Name, memo: Name, other: Name, where: map<nat, Stem>, owners: Owners, hasFuture: bool)
    requires IsMemo(p, f, memo, other) && Placing(p, where) && where[4] == FUNCTIONS
    requires SlotOf(p, where, FUNCTIONS, 3) == After && SlotOf(p, where, FUNCTIONS, 4) == Before
    requires Runs(p, MemoLookups(f, memo), hasFuture) && memo in owners && owners[memo] == FUNCTIONS
    ensures NeverImports(p, where, owners, hasFuture, MemoLookups(f, memo), FUNCTIONS)
  {
    forall k | 0 <= k < |p| && memo in p[k].Binds()
      ensures k == 3
    {
      assert memo in p[3].Binds();
    }
    LostLookup(p, where, owners, hasFuture, MemoLookups(f, memo), 4, Lookup(4, memo));
  }

  /** A private memo that a function rebinds, and a statement beside it that reads it: both land in `_functions.py`, the
      reader above the memo. */
  lemma MemoModuleBreaks(f: Name, memo: Name, other: Name, where: map<nat, Stem>, owners: Owners,
                         dunderAll: set<Name>, hasFuture: bool)
    requires Apart([f, memo, other]) && IsPrivate(memo, dunderAll)
    requires PlacedByRule(MemoModule(f, memo, other), where, owners)
    ensures BoundOnce(MemoModule(f, memo, other))
    ensures Accepted(MemoModule(f, memo, other), where, owners, dunderAll, hasFuture, FUNCTIONS)
    ensures Breaks(MemoModule(f, memo, other), where, owners, hasFuture, MemoLookups(f, memo), FUNCTIONS)
  {
    var p := MemoModule(f, memo, other);
    MemoIs(f, memo, other);
    MemoIsPlaced(p, f, memo, other, where, owners);
    MemoIsContained(p, f, memo, other, where, owners);
    MemoIsAccepted(p, f, memo, other, where, owners, dunderAll, hasFuture);
    MemoLoads(p, f, memo, other, hasFuture);
    MemoIsLost(p, f, memo, other, where, owners, hasFuture);
  }

  // ----- a name bound twice

  /** The first class reads `x`; then `x = 1` and `x = x + 1`. */
  function TwiceModule(x: Name): Module {
    [Class("A", "a", Reading({x}, {})), Class("B", "b", Reading({}, {})),
     Statement([x], Reading({}, {})), Statement([x], Reading({x}, {}))]
  }

  function TwiceLookups(x: Name): Lookups {
    [{}, {}, {}, {Lookup(3, x)}]
  }

  ghost predicate IsTwice(p: Module, x: Name) {
    && |p| == 4 && p[0].Class? && p[1].Class? && p[2].Statement? && p[3].Statement?
    && p[0].stem == "a" && p[1].stem == "b" && p[2].targets == [x] && p[3].targets == [x]
    && p[0].Binds() == {"A"} && p[1].Binds() == {"B"} && p[2].Binds() == {x} && p[3].Binds() == {x}
    && p[0].refs == p[3].refs == Reading({x}, {}) && p[1].refs == p[2].refs == Reading({}, {})
    && Rebound(p) == {} && x != "A" && x != "B"
  }

  lemma TwiceIs(x: Name)
    requires Apart([x])
    ensures IsTwice(TwiceModule(x), x)
  {
    var p := TwiceModule(x);
    assert p[2].targets[0] == x && p[3].targets[0] == x;
  }

  /** The two bindings are parted, and the class file owns the name. */
  lemma TwicePlaces(p: Module, x: Name, where: map<nat, Stem>)
    requires IsTwice(p, x) && FollowsRule(p, where)
    ensures Placing(p, where) && where[2] == SHARED && where[3] == "a"
  {
    TwiceReader(p, x);
    GoesToReader(p, where, 3, 0);
    TwiceShared(p, x);
    assert Places(p, 2, where[2]);
  }

  lemma TwiceReader(p: Module, x: Name)
    requires IsTwice(p, x)
    ensures SoleReader(p, 3, 0)
  {
    assert x in p[0].refs.all * p[3].Binds();
  }

  lemma TwiceIsPlaced(p: Module, x: Name, where: map<nat, Stem>, owners: Owners)
    requires IsTwice(p, x) && PlacedByRule(p, where, owners)
    ensures Placing(p, where) && where[2] == SHARED && where[3] == "a" && x in owners && owners[x] == "a"
  {
    TwicePlaces(p, x, where);
    TwiceOwner(p, x, where, owners);
  }

  lemma TwiceLoads(p: Module, x: Name, hasFuture: bool)
    requires IsTwice(p, x)
    ensures Runs(p, TwiceLookups(x), hasFuture) && ModuleLoads(p, TwiceLookups(x))
  {
    assert x in p[2].Binds();
  }

  lemma TwiceShared(p: Module, x: Name)
    requires IsTwice(p, x)
    ensures |OwnersOf(p, 2)| != 1
  {
    assert x in p[3].refs.all * p[2].Binds();
    assert p[0].IsDeclaration() && p[0].DeclaredIn() == "a" && x in p[0].refs.all;
    assert x in DeclarationReads(p, "a") * p[2].Binds();
    assert {"a", SHARED} <= OwnersOf(p, 2) && |SHARED| == 7 && |"a"| == 1;
    if |OwnersOf(p, 2)| == 1 {
      OnlyMember(OwnersOf(p, 2), "a");
    }
  }

  lemma TwiceOwner(p: Module, x: Name, where: map<nat, Stem>, owners: Owners)
    requires IsTwice(p, x) && PlacedByRule(p, where, owners) && where[3] == "a"
    ensures x in owners && owners[x] == "a"
  {
    assert x in p[3].Binds();
    assert SomeBinds(p, x, false, |p|);
    assert BoundBy(p, x);
    var k :| IsOwner(p, x, k) && FileOf(p, where, k) == owners[x];
    assert k == 3;
  }

  lemma TwiceIsContained(p: Module, x: Name, where: map<nat, Stem>, owners: Owners)
    requires IsTwice(p, x) && Placing(p, where) && where[3] == "a" && x in owners && owners[x] == "a"
    ensures SelfContained(p, where, owners)
  {
    forall i | 0 <= i < |p|
      ensures OwnsReads(owners, FileOf(p, where, i), p[i].refs)
    {
      if i == 0 || i == 3 {
        assert FileOf(p, where, i) == "a";
      } else {
        assert p[i].refs.all == {};
      }
    }
  }

  lemma TwiceIsLost(p: Module, x: Name, where: map<nat, Stem>, owners: Owners, hasFuture: bool)
    requires IsTwice(p, x) && Placing(p, where) && where[2] == SHARED && where[3] == "a"
    requires Runs(p, TwiceLookups(x), hasFuture) && x in owners && owners[x] == "a"
    ensures NeverImports(p, where, owners, hasFuture, TwiceLookups(x), "a")
  {
    assert |SHARED| == 7 && |"a"| == 1;
    assert forall k :: 0 <= k < |p| && x in p[k].Binds() ==> k == 2 || k == 3;
    LostLookup(p, where, owners, hasFuture, TwiceLookups(x), 3, Lookup(3, x));
  }

  lemma TwiceIsAccepted(p: Module, x: Name, where: map<nat, Stem>, owners: Owners, dunderAll: set<Name>, hasFuture: bool)
    requires IsTwice(p, x) && Placing(p, where) && SelfContained(p, where, owners) && where[3] == "a"
    ensures Accepted(p, where, owners, dunderAll, hasFuture, "a")
  {
    TwoClassesSplit(p);
    assert FileOf(p, where, 3) == "a" && |"a"| != |INIT|;
    ContainedIsAccepted(p, where, owners, dunderAll, hasFuture, 3);
  }

  /** A name bound twice is scattered over two files, and the second binding no longer sees the first. */
  lemma TwiceModuleBreaks(x: Name, where: map<nat, Stem>, owners: Owners, dunderAll: set<Name>, hasFuture: bool)
    requires Apart([x]) && PlacedByRule(TwiceModule(x), where, owners)
    ensures Rebound(TwiceModule(x)) == {} && Accepted(TwiceModule(x), where, owners, dunderAll, hasFuture, "a")
    ensures Breaks(TwiceModule(x), where, owners, hasFuture, TwiceLookups(x), "a")
  {
    var p := TwiceModule(x);
    TwiceIs(x);
    TwiceIsPlaced(p, x, where, owners);
    TwiceIsContained(p, x, where, owners);
    TwiceIsAccepted(p, x, where, owners, dunderAll, hasFuture);
    TwiceLoads(p, x, hasFuture);
    TwiceIsLost(p, x, where, owners, hasFuture);
  }
}
