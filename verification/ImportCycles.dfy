/** The import graph between the files a module splits into: the depth-first cycle search and the
    choice of imports to defer under `TYPE_CHECKING` (`scripts/split_modules.py`). */
module ImportCycles {

  type Stem = string
  type Name = string
  type Graph = map<Stem, set<Stem>>

  function Neighbours(g: Graph, s: Stem): set<Stem> {
    if s in g then g[s] else {}
  }

  predicate Edge(g: Graph, a: Stem, b: Stem) {
    b in Neighbours(g, a)
  }

  function Nodes(g: Graph): set<Stem> {
    g.Keys + set s, t | s in g && t in g[s] :: t
  }

  /** The node after position `i` on a closed walk. */
  function Next(c: seq<Stem>, i: nat): Stem
    requires i < |c|
  {
    if i + 1 < |c| then c[i + 1] else c[0]
  }

  ghost predicate IsPath(g: Graph, p: seq<Stem>) {
    forall i :: 0 <= i < |p| - 1 ==> Edge(g, p[i], p[i + 1])
  }

  /** A closed walk along edges of `g`, a self-import included. */
  ghost predicate IsCycle(g: Graph, c: seq<Stem>) {
    c != [] && forall i {:trigger Next(c, i)} :: 0 <= i < |c| ==> Edge(g, c[i], Next(c, i))
  }

  ghost predicate Acyclic(g: Graph) {
    forall c :: !IsCycle(g, c)
  }

  ghost predicate Distinct<T>(s: seq<T>) {
    forall i, j :: 0 <= i < j < |s| ==> s[i] != s[j]
  }

  function Elements<T>(s: seq<T>): set<T> {
    set x | x in s
  }

  ghost predicate Subgraph(small: Graph, large: Graph) {
    forall a, b :: Edge(small, a, b) ==> Edge(large, a, b)
  }

  // ----- what the search has to establish

  /** Every node of `order` reaches only nodes listed before it. */
  ghost predicate Layered(g: Graph, order: seq<Stem>) {
    forall i, t :: 0 <= i < |order| && Edge(g, order[i], t) ==> t in order[..i]
  }

  lemma {:induction false} NoCycleNodeEarly(g: Graph, order: seq<Stem>, c: seq<Stem>, n: nat, i: nat)
    requires Layered(g, order) && IsCycle(g, c) && n <= |order| && i < |c|
    ensures c[i] !in order[..n]
    decreases n
  {
    if n > 0 {
      NoCycleNodeEarly(g, order, c, n - 1, i);
      NoCycleNodeEarly(g, order, c, n - 1, if i + 1 < |c| then i + 1 else 0);
      assert order[..n] == order[..n - 1] + [order[n - 1]];
      assert Edge(g, c[i], Next(c, i));
    }
  }

  lemma LayeredIsAcyclic(g: Graph, order: seq<Stem>)
    requires Layered(g, order)
    requires forall s :: s in g ==> s in order
    ensures Acyclic(g)
  {
    forall c: seq<Stem>
      ensures !IsCycle(g, c)
    {
      if c != [] && Edge(g, c[0], Next(c, 0)) && IsCycle(g, c) {
        NoCycleNodeEarly(g, order, c, |order|, 0);
      }
    }
  }

  lemma CycleOfSubgraph(small: Graph, large: Graph, c: seq<Stem>)
    requires Subgraph(small, large) && IsCycle(small, c)
    ensures IsCycle(large, c)
  {
  }

  // ----- the search

  /** The walk stands at the end of `path`; every other explored node's walk has returned, and if no
      cycle was met, those nodes are layered. */
  ghost predicate Frontier(g: Graph, explored: set<Stem>, path: seq<Stem>, finished: seq<Stem>, clean: bool) {
    && explored == Elements(path) + Elements(finished)
    && explored <= Nodes(g)
    && Distinct(path)
    && IsPath(g, path)
    && (clean ==> Layered(g, finished))
  }

  /** The cycles found so far are real and simple, no two over the same nodes. */
  ghost predicate Recorded(g: Graph, seen: set<set<Stem>>, cycles: seq<seq<Stem>>) {
    && (forall key :: key in seen <==> exists c :: c in cycles && Elements(c) == key)
    && (forall c :: c in cycles ==> IsCycle(g, c) && Distinct(c))
    && (forall i, j :: 0 <= i < j < |cycles| ==> Elements(cycles[i]) != Elements(cycles[j]))
  }

  lemma StepDown(g: Graph, explored: set<Stem>, path: seq<Stem>, finished: seq<Stem>, clean: bool, t: Stem)
    requires Frontier(g, explored, path, finished, clean)
    requires t !in explored && t in Nodes(g) && (path != [] ==> Edge(g, path[|path| - 1], t))
    ensures Frontier(g, explored + {t}, path + [t], finished, clean)
  {
    assert Elements(path + [t]) == Elements(path) + {t};
    assert forall x :: x in path ==> x in Elements(path);
  }

  lemma StepBack(g: Graph, explored: set<Stem>, path: seq<Stem>, stem: Stem, finished: seq<Stem>, clean: bool)
    requires Frontier(g, explored, path + [stem], finished, clean)
    requires clean ==> Neighbours(g, stem) <= Elements(finished)
    ensures Frontier(g, explored, path, finished + [stem], clean)
  {
    assert Elements(path + [stem]) == Elements(path) + {stem};
    assert Elements(finished + [stem]) == Elements(finished) + {stem};
    assert forall i :: 0 <= i < |path| ==> (path + [stem])[i] == path[i];
    if clean {
      forall i, t | 0 <= i < |finished + [stem]| && Edge(g, (finished + [stem])[i], t)
        ensures t in (finished + [stem])[..i]
      {
        if i < |finished| {
          assert (finished + [stem])[..i] == finished[..i];
        } else {
          assert (finished + [stem])[..i] == finished;
          assert t in Elements(finished);
        }
      }
    }
  }

  lemma ClosedPathIsCycle(g: Graph, path: seq<Stem>, k: nat)
    requires k < |path| && IsPath(g, path) && Distinct(path)
    requires Edge(g, path[|path| - 1], path[k])
    ensures IsCycle(g, path[k..]) && Distinct(path[k..])
  {
  }

  /** One run of the depth-first search. `finished` lists the nodes whose walk has returned. */
  class CycleSearch {
    const graph: Graph
    var explored: set<Stem>
    var seen: set<set<Stem>>
    var cycles: seq<seq<Stem>>
    ghost var finished: seq<Stem>

    ghost predicate Valid(path: seq<Stem>)
      reads this
    {
      && Frontier(graph, explored, path, finished, cycles == [])
      && Recorded(graph, seen, cycles)
    }

    constructor (graph: Graph)
      ensures Valid([]) && this.graph == graph && finished == []
    {
      this.graph := graph;
      explored, seen, cycles, finished := {}, {}, [], [];
    }

    method Walk(stem: Stem, path: seq<Stem>)
      requires Valid(path + [stem])
      modifies this
      ensures Valid(path)
      ensures Elements(old(finished)) + {stem} <= Elements(finished)
      ensures old(explored) <= explored && old(cycles) <= cycles
      decreases Nodes(graph) - explored
    {
      var todo := Neighbours(graph, stem);
      while todo != {}
        invariant todo <= Neighbours(graph, stem)
        invariant Valid(path + [stem])
        invariant Elements(old(finished)) <= Elements(finished)
        invariant old(explored) <= explored && old(cycles) <= cycles
        invariant cycles == [] ==> Neighbours(graph, stem) - todo <= Elements(finished)
        decreases todo
      {
        var neighbour :| neighbour in todo;
        todo := todo - {neighbour};
        if neighbour in path + [stem] {
          Close(path + [stem], neighbour);
        } else if neighbour !in explored {
          StepDown(graph, explored, path + [stem], finished, cycles == [], neighbour);
          explored := explored + {neighbour};
          Walk(neighbour, path + [stem]);
        }
      }
      StepBack(graph, explored, path, stem, finished, cycles == []);
      assert Elements(finished + [stem]) == Elements(finished) + {stem};
      finished := finished + [stem];
    }

    /** Record the cycle that an edge back to `neighbour` closes, unless its nodes were seen. */
    method Close(path: seq<Stem>, neighbour: Stem)
      requires Valid(path) && path != [] && neighbour in path
      requires Edge(graph, path[|path| - 1], neighbour)
      modifies this`seen, this`cycles
      ensures Valid(path) && cycles != [] && old(cycles) <= cycles
    {
      var k := IndexOf(path, neighbour);
      var cycle := path[k..];
      ClosedPathIsCycle(graph, path, k);
      var key := Elements(cycle);
      if key !in seen {
        assert forall c :: c in cycles + [cycle] <==> c in cycles || c == cycle;
        seen := seen + {key};
        cycles := cycles + [cycle];
      }
    }
  }

  method IndexOf(path: seq<Stem>, x: Stem) returns (k: nat)
    requires x in path
    ensures k < |path| && path[k] == x && x !in path[..k]
  {
    k := 0;
    while path[k] != x
      invariant k < |path| && x !in path[..k]
      decreases |path| - k
    {
      k := k + 1;
    }
  }

  /** The search finds nothing exactly when the graph has no cycle, and reports only real, simple
      cycles, no two over the same nodes. With none, `order` lists the nodes so that each imports
      only earlier ones. The source starts from the keys in sorted order; any order is allowed here. */
  method RuntimeCycles(graph: Graph) returns (cycles: seq<seq<Stem>>, ghost order: seq<Stem>)
    ensures cycles == [] <==> Acyclic(graph)
    ensures cycles == [] ==> Layered(graph, order) && graph.Keys <= Elements(order) <= Nodes(graph)
    ensures forall c :: c in cycles ==> IsCycle(graph, c) && Distinct(c)
    ensures forall i, j :: 0 <= i < j < |cycles| ==> Elements(cycles[i]) != Elements(cycles[j])
  {
    var search := new CycleSearch(graph);
    var todo := graph.Keys;
    while todo != {}
      invariant todo <= graph.Keys
      invariant search.graph == graph && search.Valid([])
      invariant graph.Keys - todo <= Elements(search.finished)
      decreases todo
    {
      var stem :| stem in todo;
      todo := todo - {stem};
      if stem !in search.explored {
        StepDown(graph, search.explored, [], search.finished, search.cycles == [], stem);
        search.explored := search.explored + {stem};
        search.Walk(stem, []);
      }
    }
    cycles, order := search.cycles, search.finished;
    if cycles == [] {
      assert forall s :: s in graph ==> s in Elements(search.finished);
      LayeredIsAcyclic(graph, search.finished);
    } else {
      assert IsCycle(graph, cycles[0]);
    }
  }

  // ----- which imports to defer

  /** The names a split file reads; `runtime` are the reads that are not annotation-only. */
  datatype Reads = Reads(all: set<Name>, runtime: set<Name>)

  type ReadsByStem = map<Stem, Reads>
  type Owners = map<Name, Stem>
  type Deferral = map<Stem, set<Name>>

  datatype Choice = Deferred(names: Deferral) | Refused(cycles: seq<seq<Stem>>)

  function DeferredIn(d: Deferral, stem: Stem): set<Name> {
    if stem in d then d[stem] else {}
  }

  /** The names a file reads that another file owns, with their owner. */
  function Siblings(stem: Stem, file: Reads, owners: Owners): map<Name, Stem> {
    map n | n in owners && owners[n] != stem && n in file.all :: owners[n]
  }

  /** The imports left at run time once `d` is deferred. */
  function ImportGraph(files: ReadsByStem, owners: Owners, d: Deferral): Graph {
    map stem | stem in files ::
      set n | n in Siblings(stem, files[stem], owners) && n !in DeferredIn(d, stem) :: owners[n]
  }

  /** The imports no deferral may touch: those of a name read at run time. */
  function RuntimeGraph(files: ReadsByStem, owners: Owners): Graph {
    map stem | stem in files ::
      set n | n in Siblings(stem, files[stem], owners) && n in files[stem].runtime :: owners[n]
  }

  /** The names `stem` still imports from `target`. */
  function EdgeNames(files: ReadsByStem, owners: Owners, d: Deferral, stem: Stem, target: Stem): set<Name>
    requires stem in files
  {
    set n | n in Siblings(stem, files[stem], owners) && owners[n] == target && n !in DeferredIn(d, stem)
  }

  function Defer(d: Deferral, stem: Stem, names: set<Name>): Deferral {
    d[stem := DeferredIn(d, stem) + names]
  }

  /** The imports still pending, as (file, name) pairs. */
  ghost function Pending(files: ReadsByStem, owners: Owners, d: Deferral): set<(Stem, Name)> {
    set s, n | s in files && n in Siblings(s, files[s], owners) && n !in DeferredIn(d, s) :: (s, n)
  }

  /** No name read at run time is deferred, nor a name the file does not import. */
  ghost predicate OnlyAnnotations(files: ReadsByStem, owners: Owners, d: Deferral) {
    forall s, n :: n in DeferredIn(d, s) ==>
      s in files && n in Siblings(s, files[s], owners) && n !in files[s].runtime
  }

  /** An edge is deferred whole or not at all. */
  ghost predicate WholeEdges(files: ReadsByStem, owners: Owners, d: Deferral) {
    forall s, n, m :: s in files && SameEdge(files[s], owners, s, n, m) && n in DeferredIn(d, s)
                      ==> m in DeferredIn(d, s)
  }

  predicate SameEdge(file: Reads, owners: Owners, stem: Stem, n: Name, m: Name) {
    var siblings := Siblings(stem, file, owners);
    n in siblings && m in siblings && owners[n] == owners[m]
  }

  ghost predicate OnCycle(g: Graph, a: Stem, b: Stem) {
    exists c, i :: IsCycle(g, c) && Follows(c, i, a, b)
  }

  ghost predicate Follows(c: seq<Stem>, i: int, a: Stem, b: Stem) {
    0 <= i < |c| && c[i] == a && Next(c, i) == b
  }

  /** Every deferred import lies on a cycle of the imports as they stood before any deferral. */
  ghost predicate ForcedByCycle(files: ReadsByStem, owners: Owners, d: Deferral) {
    forall s, n :: n in DeferredIn(d, s) && n in owners ==>
      OnCycle(ImportGraph(files, owners, map[]), s, owners[n])
  }

  lemma DeferralShrinks(files: ReadsByStem, owners: Owners, d: Deferral)
    ensures Subgraph(ImportGraph(files, owners, d), ImportGraph(files, owners, map[]))
  {
  }

  lemma RuntimeSurvives(files: ReadsByStem, owners: Owners, d: Deferral)
    requires OnlyAnnotations(files, owners, d)
    ensures Subgraph(RuntimeGraph(files, owners), ImportGraph(files, owners, d))
  {
  }

  lemma DeferKeepsShape(files: ReadsByStem, owners: Owners, d: Deferral, a: Stem, b: Stem)
    requires OnlyAnnotations(files, owners, d) && WholeEdges(files, owners, d)
    requires a in files && EdgeNames(files, owners, d, a, b) !! files[a].runtime
    ensures var d' := Defer(d, a, EdgeNames(files, owners, d, a, b));
            OnlyAnnotations(files, owners, d') && WholeEdges(files, owners, d')
  {
    var names := EdgeNames(files, owners, d, a, b);
    var d' := Defer(d, a, names);
    forall s, n | n in DeferredIn(d', s)
      ensures s in files && n in Siblings(s, files[s], owners) && n !in files[s].runtime
    {
      if n !in DeferredIn(d, s) {
        assert s == a && n in names;
      }
    }
    forall s, n, m | s in files && SameEdge(files[s], owners, s, n, m) && n in DeferredIn(d', s)
      ensures m in DeferredIn(d', s)
    {
      if n !in DeferredIn(d, s) {
        assert s == a && owners[n] == b;
      } else {
        assert m in DeferredIn(d, s);
      }
    }
  }

  lemma DeferKeepsForced(files: ReadsByStem, owners: Owners, d: Deferral, c: seq<Stem>, i: nat)
    requires ForcedByCycle(files, owners, d)
    requires i < |c| && IsCycle(ImportGraph(files, owners, d), c) && c[i] in files
    ensures ForcedByCycle(files, owners, Defer(d, c[i], EdgeNames(files, owners, d, c[i], Next(c, i))))
  {
    DeferralShrinks(files, owners, d);
    CycleOfSubgraph(ImportGraph(files, owners, d), ImportGraph(files, owners, map[]), c);
    assert Follows(c, i, c[i], Next(c, i));
    var d' := Defer(d, c[i], EdgeNames(files, owners, d, c[i], Next(c, i)));
    forall s, n | n in DeferredIn(d', s) && n in owners
      ensures OnCycle(ImportGraph(files, owners, map[]), s, owners[n])
    {
      if n !in DeferredIn(d, s) {
        assert s == c[i] && owners[n] == Next(c, i);
      }
    }
  }

  lemma DeferProgress(files: ReadsByStem, owners: Owners, d: Deferral, a: Stem, b: Stem)
    requires a in files && EdgeNames(files, owners, d, a, b) != {}
    ensures Pending(files, owners, Defer(d, a, EdgeNames(files, owners, d, a, b))) < Pending(files, owners, d)
  {
    var names := EdgeNames(files, owners, d, a, b);
    var n :| n in names;
    assert (a, n) in Pending(files, owners, d) && (a, n) !in Pending(files, owners, Defer(d, a, names));
  }

  lemma SubgraphAcyclic(small: Graph, large: Graph)
    requires Subgraph(small, large) && Acyclic(large)
    ensures Acyclic(small)
  {
    forall c: seq<Stem>
      ensures !IsCycle(small, c)
    {
      if IsCycle(small, c) {
        CycleOfSubgraph(small, large, c);
      }
    }
  }

  /** An import that cannot be deferred carries a run-time read. */
  lemma EdgeIsRead(files: ReadsByStem, owners: Owners, d: Deferral, a: Stem, b: Stem)
    requires Edge(ImportGraph(files, owners, d), a, b)
    ensures a in files && EdgeNames(files, owners, d, a, b) != {}
    ensures EdgeNames(files, owners, d, a, b) !! files[a].runtime || Edge(RuntimeGraph(files, owners), a, b)
  {
    var names := EdgeNames(files, owners, d, a, b);
    var n :| n in Siblings(a, files[a], owners) && n !in DeferredIn(d, a) && owners[n] == b;
    assert n in names;
    if !(names !! files[a].runtime) {
      var m :| m in names && m in files[a].runtime;
      assert owners[m] in RuntimeGraph(files, owners)[a];
    }
  }

  /** The cycle's import out of its `i`-th file: its names, and whether a run-time read needs it. */
  lemma CycleImport(files: ReadsByStem, owners: Owners, d: Deferral, cycle: seq<Stem>, i: nat)
    requires IsCycle(ImportGraph(files, owners, d), cycle) && i < |cycle|
    ensures cycle[i] in files && EdgeNames(files, owners, d, cycle[i], Next(cycle, i)) != {}
    ensures EdgeNames(files, owners, d, cycle[i], Next(cycle, i)) !! files[cycle[i]].runtime
         || NeededAt(files, owners, cycle, i)
  {
    assert Edge(ImportGraph(files, owners, d), cycle[i], Next(cycle, i));
    EdgeIsRead(files, owners, d, cycle[i], Next(cycle, i));
  }

  ghost predicate NeededAt(files: ReadsByStem, owners: Owners, cycle: seq<Stem>, i: nat)
    requires i < |cycle|
  {
    Edge(RuntimeGraph(files, owners), cycle[i], Next(cycle, i))
  }

  method Deferrable(files: ReadsByStem, owners: Owners, deferred: Deferral, cycle: seq<Stem>, i: nat)
    returns (free: bool, names: set<Name>)
    requires IsCycle(ImportGraph(files, owners, deferred), cycle) && i < |cycle|
    ensures cycle[i] in files && names == EdgeNames(files, owners, deferred, cycle[i], Next(cycle, i)) && names != {}
    ensures free ==> names !! files[cycle[i]].runtime
    ensures !free ==> NeededAt(files, owners, cycle, i)
  {
    CycleImport(files, owners, deferred, cycle, i);
    names := EdgeNames(files, owners, deferred, cycle[i], Next(cycle, i));
    free := names !! files[cycle[i]].runtime;
  }

  /** The first edge of a cycle whose names are all read in annotations only. */
  method FindDeferrable(files: ReadsByStem, owners: Owners, deferred: Deferral, cycle: seq<Stem>)
    returns (found: bool, index: nat, names: set<Name>)
    requires IsCycle(ImportGraph(files, owners, deferred), cycle)
    ensures found ==> index < |cycle| && cycle[index] in files
    ensures found ==> names == EdgeNames(files, owners, deferred, cycle[index], Next(cycle, index))
    ensures found ==> names != {} && names !! files[cycle[index]].runtime
    ensures !found ==> forall i :: 0 <= i < |cycle| ==> NeededAt(files, owners, cycle, i)
  {
    for k := 0 to |cycle|
      invariant forall i :: 0 <= i < k ==> NeededAt(files, owners, cycle, i)
    {
      var free;
      free, names := Deferrable(files, owners, deferred, cycle, k);
      if free {
        return true, k, names;
      }
    }
    found, index, names := false, 0, {};
  }

  lemma NeededCycle(files: ReadsByStem, owners: Owners, cycle: seq<Stem>)
    requires cycle != [] && forall i :: 0 <= i < |cycle| ==> NeededAt(files, owners, cycle, i)
    ensures IsCycle(RuntimeGraph(files, owners), cycle)
  {
    forall i | 0 <= i < |cycle|
      ensures Edge(RuntimeGraph(files, owners), cycle[i], Next(cycle, i))
    {
      assert NeededAt(files, owners, cycle, i);
    }
  }

  /** An import is deferred only where a cycle forces it, and never when a run-time read needs it.
      The choice is refused exactly when the imports that run-time reads need have a cycle already. */
  method ChooseDeferred(files: ReadsByStem, owners: Owners) returns (r: Choice, ghost order: seq<Stem>)
    ensures r.Deferred? <==> Acyclic(RuntimeGraph(files, owners))
    ensures r.Deferred? ==> Acyclic(ImportGraph(files, owners, r.names))
    ensures r.Deferred? ==> Layered(ImportGraph(files, owners, r.names), order)
    ensures r.Deferred? ==> files.Keys <= Elements(order) <= Nodes(ImportGraph(files, owners, r.names))
    ensures r.Deferred? ==> OnlyAnnotations(files, owners, r.names) && WholeEdges(files, owners, r.names)
    ensures r.Deferred? ==> ForcedByCycle(files, owners, r.names)
    ensures r.Deferred? ==> (r.names == map[] <==> Acyclic(ImportGraph(files, owners, map[])))
    ensures r.Refused? ==> r.cycles != [] && IsCycle(RuntimeGraph(files, owners), r.cycles[0])
    ensures r.Refused? ==> forall c :: c in r.cycles ==> IsCycle(ImportGraph(files, owners, map[]), c)
  {
    var deferred: Deferral := map[];
    while true
      invariant OnlyAnnotations(files, owners, deferred) && WholeEdges(files, owners, deferred)
      invariant ForcedByCycle(files, owners, deferred)
      invariant deferred != map[] ==> !Acyclic(ImportGraph(files, owners, map[]))
      decreases Pending(files, owners, deferred)
    {
      var graph := ImportGraph(files, owners, deferred);
      RuntimeSurvives(files, owners, deferred);
      ghost var layers;
      var cycles;
      cycles, layers := RuntimeCycles(graph);
      if cycles == [] {
        SubgraphAcyclic(RuntimeGraph(files, owners), graph);
        return Deferred(deferred), layers;
      }
      var cycle := cycles[0];
      assert cycle in cycles;
      DeferralShrinks(files, owners, deferred);
      CycleOfSubgraph(graph, ImportGraph(files, owners, map[]), cycle);
      var found, index, names := FindDeferrable(files, owners, deferred, cycle);
      if found {
        DeferKeepsShape(files, owners, deferred, cycle[index], Next(cycle, index));
        DeferKeepsForced(files, owners, deferred, cycle, index);
        DeferProgress(files, owners, deferred, cycle[index], Next(cycle, index));
        deferred := Defer(deferred, cycle[index], names);
      } else {
        NeededCycle(files, owners, cycle);
        return Refused(cycles), [];
      }
    }
  }
}
