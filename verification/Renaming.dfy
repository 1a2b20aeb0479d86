/** Renaming an item's files and directories, deepest first, and handing out ids
    (`scripts/allocate_roadmap_ids.py`). Paths are relative to the item's directory. */
module Renaming {

  type Path = seq<string>

  function Last(p: Path): string
    requires p != []
  {
    p[|p| - 1]
  }

  function Parent(p: Path): Path
    requires p != []
  {
    p[..|p| - 1]
  }

  lemma LastOf(p: Path)
    requires p != []
    ensures p == Parent(p) + [Last(p)]
  {
  }

  lemma SnocEquals(a: Path, x: string, b: Path, y: string)
    ensures a + [x] == b + [y] <==> a == b && x == y
  {
    if a + [x] == b + [y] {
      assert |a| == |b|;
      assert (a + [x])[..|a|] == a && (b + [y])[..|b|] == b;
      assert (a + [x])[|a|] == x && (b + [y])[|b|] == y;
    }
  }

  /** Every entry but the top ones stands in a directory. */
  ghost predicate IsTree(tree: set<Path>, dirs: set<Path>) {
    dirs <= tree && forall p :: p in tree ==> p != [] && (|p| > 1 ==> Parent(p) in dirs)
  }

  // ----- one `git mv`

  /** Where each entry stands. */
  type Places = map<Path, Path>

  ghost predicate Taken(at: Places, path: Path) {
    exists p :: p in at && at[p] == path
  }

  function Moved(p: Path, src: Path, dst: Path): Path {
    if src <= p then dst + p[|src|..] else p
  }

  /** The whole subtree goes along. */
  function Relocate(at: Places, src: Path, dst: Path): Places {
    map p | p in at :: Moved(at[p], src, dst)
  }

  /** `git mv`: to a name that is free; into a directory that has the name, if the directory has no such entry; and to
      nothing else. */
  method GitMv(at: Places, dirs: set<Path>, src: Path, dst: Path) returns (ok: bool, after: Places)
    requires src != []
    ensures !Taken(at, dst) ==> ok && after == Relocate(at, src, dst)
    ensures Taken(at, dst) && ok ==>
      after == Relocate(at, src, dst + [Last(src)]) && exists q :: q in dirs && q in at && at[q] == dst
    ensures Taken(at, dst) && !ok ==> Taken(at, dst + [Last(src)]) || exists q :: q !in dirs && q in at && at[q] == dst
  {
    if q :| q in at && at[q] == dst {
      var into := dst + [Last(src)];
      if q !in dirs {
        return false, at;
      }
      if p :| p in at && at[p] == into {
        return false, at;
      }
      return true, Relocate(at, src, into);
    }
    return true, Relocate(at, src, dst);
  }

  // ----- who is renamed, and who finds its name taken

  ghost predicate Siblings(p: Path, q: Path) {
    p != [] && q != [] && p != q && Parent(p) == Parent(q)
  }

  /** No two entries of a directory get one name. */
  ghost predicate NoCollision(tree: set<Path>, rename: string -> string) {
    forall p, q :: p in tree && q in tree && Siblings(p, q) ==> rename(Last(p)) != rename(Last(q))
  }

  /** A renamed name is not renamed again: the new token does not bring the old one back. */
  ghost predicate Settles(rename: string -> string) {
    forall n :: rename(rename(n)) == rename(n)
  }

  function Elements(s: seq<Path>): set<Path> {
    set p | p in s
  }

  /** The entries as they are collected: each once, deepest first. */
  ghost predicate DeepestFirst(entries: seq<Path>) {
    forall i, j :: 0 <= i < j < |entries| ==> |entries[i]| >= |entries[j]| && entries[i] != entries[j]
  }

  /** A sibling that gets the same name, and has it before the `k`-th entry's turn. */
  ghost predicate Rival(entries: seq<Path>, rename: string -> string, k: nat, q: Path)
    requires k < |entries|
  {
    var f := entries[k];
    && q in entries && Siblings(q, f) && rename(Last(q)) == rename(Last(f))
    && (Last(q) == rename(Last(f)) || q in entries[..k])
  }

  /** The `k`-th entry is to be renamed and finds its new name taken. */
  ghost predicate Loses(entries: seq<Path>, rename: string -> string, k: nat)
    requires k < |entries| && entries[k] != []
  {
    rename(Last(entries[k])) != Last(entries[k]) && exists q :: Rival(entries, rename, k, q)
  }

  /** The sibling that has the name: the one that had it all along, or else the first to get it. */
  ghost predicate Host(entries: seq<Path>, rename: string -> string, k: nat, q: Path)
    requires k < |entries|
  {
    && Rival(entries, rename, k, q)
    && (Last(q) != rename(Last(q)) ==>
          forall i :: 0 <= i < |entries| && entries[i] == q ==> forall r :: !Rival(entries, rename, i, r))
  }

  ghost predicate Lost(entries: seq<Path>, rename: string -> string, p: Path) {
    exists k :: 0 <= k < |entries| && entries[k] == p && p != [] && Loses(entries, rename, k)
  }

  // ----- where an entry stands once some entries have had their turn

  /** The end of an entry's path: a name taken is a directory entered under the old name. */
  ghost function Tail(p: Path, done: set<Path>, entries: seq<Path>, rename: string -> string): (t: Path)
    requires p != []
    ensures 1 <= |t| <= 2
  {
    if p !in done then [Last(p)]
    else if Lost(entries, rename, p) then [rename(Last(p)), Last(p)] else [rename(Last(p))]
  }

  ghost function Image(p: Path, done: set<Path>, entries: seq<Path>, rename: string -> string): (q: Path)
    ensures |q| >= |p|
  {
    if p == [] then [] else Image(Parent(p), done, entries, rename) + Tail(p, done, entries, rename)
  }

  /** Every component renamed. */
  function Renamed(p: Path, rename: string -> string): Path {
    if p == [] then [] else Renamed(Parent(p), rename) + [rename(Last(p))]
  }

  lemma {:induction false} ImagePrefix(p: Path, done: set<Path>, entries: seq<Path>, rename: string -> string, i: nat)
    requires i <= |p|
    ensures Image(p[..i], done, entries, rename) <= Image(p, done, entries, rename)
  {
    if i < |p| {
      ImagePrefix(Parent(p), done, entries, rename, i);
      assert Parent(p)[..i] == p[..i];
    } else {
      assert p[..i] == p;
    }
  }

  lemma {:induction false} ImageUntouched(p: Path, done: set<Path>, entries: seq<Path>, rename: string -> string)
    requires forall d :: d in done ==> |d| > |p|
    ensures Image(p, done, entries, rename) == p
  {
    if p != [] {
      ImageUntouched(Parent(p), done, entries, rename);
      LastOf(p);
    }
  }

  /** Deepest first: what is done is no shallower than what is left, and `f` is next. */
  ghost predicate Next(done: set<Path>, f: Path) {
    f != [] && f !in done && forall p :: p in done ==> |p| >= |f|
  }

  /** Up to the depth of the next entry, only the last component can have changed. */
  lemma ImageAtDepth(p: Path, f: Path, done: set<Path>, entries: seq<Path>, rename: string -> string)
    requires Next(done, f) && p != [] && |p| <= |f|
    ensures Image(p, done, entries, rename) == Parent(p) + Tail(p, done, entries, rename)
  {
    ImageUntouched(Parent(p), done, entries, rename);
  }

  /** What is next stands where it stood: nothing above it has moved. */
  lemma NextStands(f: Path, done: set<Path>, entries: seq<Path>, rename: string -> string)
    requires Next(done, f)
    ensures Image(f, done, entries, rename) == f
  {
    ImageAtDepth(f, f, done, entries, rename);
    LastOf(f);
  }

  lemma SamePrefix(a: Path, b: Path, f: Path)
    requires a <= b && |f| <= |a|
    ensures f <= a <==> f <= b
  {
    assert b[..|a|] == a;
    if f <= b {
      assert a[..|f|] == b[..|f|];
    }
  }

  /** An entry's place lies below an entry to be renamed exactly when the entry does. */
  lemma BelowIff(p: Path, f: Path, done: set<Path>, entries: seq<Path>, rename: string -> string)
    requires Next(done, f) && Settles(rename) && rename(Last(f)) != Last(f)
    ensures f <= Image(p, done, entries, rename) <==> f <= p
  {
    if |p| < |f| {
      ImageUntouched(p, done, entries, rename);
    } else {
      var q := p[..|f|];
      ImagePrefix(p, done, entries, rename, |f|);
      ImageAtDepth(q, f, done, entries, rename);
      var at, t := Image(q, done, entries, rename), Tail(q, done, entries, rename);
      SamePrefix(at, Image(p, done, entries, rename), f);
      assert at[..|f|] == Parent(q) + [t[0]];
      LastOf(f);
      LastOf(q);
      SnocEquals(Parent(q), t[0], Parent(f), Last(f));
      assert f <= at <==> Parent(q) == Parent(f) && t[0] == Last(f);
      assert q in done ==> t[0] == rename(Last(q)) && rename(t[0]) == t[0];
    }
  }

  lemma MovedAppend(q: Path, t: Path, f: Path, dst: Path)
    requires f <= q
    ensures Moved(q + t, f, dst) == Moved(q, f, dst) + t
  {
    assert (q + t)[|f|..] == q[|f|..] + t;
    assert (q + t)[..|f|] == f;
  }

  /** An entry not below `f` does not notice. */
  lemma {:induction false} SameImage(p: Path, f: Path, done: set<Path>, entries: seq<Path>, rename: string -> string)
    requires !(f <= p)
    ensures Image(p, done + {f}, entries, rename) == Image(p, done, entries, rename)
  {
    if p != [] {
      assert !(f <= Parent(p));
      SameImage(Parent(p), f, done, entries, rename);
    }
  }

  /** Where the next entry goes. */
  ghost function Target(f: Path, entries: seq<Path>, rename: string -> string): Path
    requires f != []
  {
    Parent(f) + Tail(f, {f}, entries, rename)
  }

  /** One `git mv` takes every entry from its place with some entries renamed to its place with one more renamed. */
  lemma {:induction false} MoveOne(p: Path, f: Path, done: set<Path>, entries: seq<Path>, rename: string -> string)
    requires Next(done, f) && Settles(rename) && rename(Last(f)) != Last(f)
    ensures Moved(Image(p, done, entries, rename), f, Target(f, entries, rename)) == Image(p, done + {f}, entries, rename)
    decreases |p|
  {
    var dst := Target(f, entries, rename);
    BelowIff(p, f, done, entries, rename);
    if !(f <= p) {
      SameImage(p, f, done, entries, rename);
    } else if p == f {
      NextStands(f, done, entries, rename);
      ImageUntouched(Parent(f), done + {f}, entries, rename);
      assert f[|f|..] == [];
    } else {
      assert f <= Parent(p);
      MoveOne(Parent(p), f, done, entries, rename);
      BelowIff(Parent(p), f, done, entries, rename);
      MoveBelow(p, f, done, entries, rename, dst);
    }
  }

  lemma MoveBelow(p: Path, f: Path, done: set<Path>, entries: seq<Path>, rename: string -> string, dst: Path)
    requires p != [] && p != f && f <= Image(Parent(p), done, entries, rename)
    requires Moved(Image(Parent(p), done, entries, rename), f, dst) == Image(Parent(p), done + {f}, entries, rename)
    ensures Moved(Image(p, done, entries, rename), f, dst) == Image(p, done + {f}, entries, rename)
  {
    MovedAppend(Image(Parent(p), done, entries, rename), Tail(p, done, entries, rename), f, dst);
  }

  lemma {:induction false} UnchangedImage(p: Path, f: Path, done: set<Path>, entries: seq<Path>, rename: string -> string)
    requires f != [] && rename(Last(f)) == Last(f)
    ensures Image(p, done + {f}, entries, rename) == Image(p, done, entries, rename)
  {
    if p != [] {
      UnchangedImage(Parent(p), f, done, entries, rename);
    }
  }

  // ----- whose place is taken

  /** Who stands where the next entry is to go: a sibling that has the name and is not itself in someone else's. */
  lemma AtTargetIff(p: Path, f: Path, done: set<Path>, entries: seq<Path>, rename: string -> string)
    requires Next(done, f) && p != [] && rename(Last(f)) != Last(f)
    ensures Image(p, done, entries, rename) == Parent(f) + [rename(Last(f))] <==>
      (&& Siblings(p, f)
       && if p in done then rename(Last(p)) == rename(Last(f)) && !Lost(entries, rename, p) else Last(p) == rename(Last(f)))
  {
    var n, t := rename(Last(f)), Tail(p, done, entries, rename);
    assert |p| == |Parent(p)| + 1 && |f| == |Parent(f)| + 1;
    if |p| <= |f| {
      ImageAtDepth(p, f, done, entries, rename);
      if |t| == 1 {
        assert t == [t[0]];
        SnocEquals(Parent(p), t[0], Parent(f), n);
      } else {
        assert p in done && |Parent(p) + t| == |f| + 1;
      }
      ShorterIsElsewhere(p, t, f, n);
    } else {
      assert |Image(p, done, entries, rename)| >= |p| > |f|;
    }
  }

  lemma ShorterIsElsewhere(p: Path, t: Path, f: Path, n: string)
    requires p != [] && f != [] && |p| <= |f| && 1 <= |t| <= 2
    ensures |p| < |f| && |t| == 1 ==> Parent(p) + t != Parent(f) + [n]
    ensures Parent(p) == Parent(f) ==> |p| == |f|
  {
    assert |Parent(p)| == |p| - 1 && |Parent(f)| == |f| - 1;
  }

  /** The directory the next entry would enter has no entry of that name. */
  lemma NoneInside(p: Path, f: Path, done: set<Path>, entries: seq<Path>, rename: string -> string)
    requires Next(done, f) && p != [] && rename(Last(f)) != Last(f) && Settles(rename)
    requires |p| > |f| ==> p in done
    ensures Image(p, done, entries, rename) != Parent(f) + [rename(Last(f)), Last(f)]
  {
    var n, into := rename(Last(f)), Parent(f) + [rename(Last(f)), Last(f)];
    var t := Tail(p, done, entries, rename);
    assert |into| == |f| + 1;
    if |p| <= |f| {
      ImageAtDepth(p, f, done, entries, rename);
      if Parent(p) + t == into {
        assert |t| == 2 && |p| == |f|;
        assert (Parent(p) + t)[..|f| - 1] == Parent(p) && into[..|f| - 1] == Parent(f);
        assert (Parent(p) + t)[|f|] == Last(p) && into[|f|] == Last(f);
        LastOf(p);
        LastOf(f);
      }
    } else {
      LastIsFixed(p, done, entries, rename);
    }
  }

  /** Where nothing but a single component was added, the last name is one that stays. */
  lemma LastIsFixed(p: Path, done: set<Path>, entries: seq<Path>, rename: string -> string)
    requires p in done && p != [] && Settles(rename)
    ensures var q := Image(p, done, entries, rename); |q| == |p| ==> rename(Last(q)) == Last(q)
  {
    var t := Tail(p, done, entries, rename);
    assert |Image(Parent(p), done, entries, rename)| >= |p| - 1;
    assert |t| == 1 ==> t[0] == rename(Last(p)) && rename(t[0]) == t[0];
  }

  // ----- the loop's invariant

  /** Each entry stands where it does once those of `done` have had their turn. */
  ghost predicate Standing(tree: set<Path>, at: Places, done: set<Path>, entries: seq<Path>, rename: string -> string) {
    at.Keys == tree && forall p :: p in tree ==> at[p] == Image(p, done, entries, rename)
  }

  /** The first `k` entries have had their turn. */
  ghost predicate Visited(tree: set<Path>, at: Places, entries: seq<Path>, k: nat, rename: string -> string)
    requires k <= |entries|
  {
    Standing(tree, at, Elements(entries[..k]), entries, rename)
  }

  /** What is collected: every entry, deepest first. */
  ghost predicate Collected(tree: set<Path>, dirs: set<Path>, entries: seq<Path>) {
    IsTree(tree, dirs) && Elements(entries) == tree && DeepestFirst(entries)
  }

  lemma NextIs(entries: seq<Path>, k: nat)
    requires DeepestFirst(entries) && k < |entries| && entries[k] != []
    ensures Next(Elements(entries[..k]), entries[k])
    ensures Elements(entries[..k + 1]) == Elements(entries[..k]) + {entries[k]}
  {
    assert entries[..k + 1] == entries[..k] + [entries[k]];
    forall p | p in entries[..k]
      ensures |p| >= |entries[k]| && p != entries[k]
    {
      var i :| 0 <= i < k && entries[..k][i] == p;
      assert entries[i] == p;
    }
  }

  lemma DeeperIsDone(entries: seq<Path>, k: nat, p: Path)
    requires DeepestFirst(entries) && k < |entries| && p in entries && |p| > |entries[k]|
    ensures p in Elements(entries[..k])
  {
    var i :| 0 <= i < |entries| && entries[i] == p;
    assert i < k;
    assert entries[..k][i] == p;
  }

  lemma IndexIs(entries: seq<Path>, k: nat, i: nat)
    requires DeepestFirst(entries) && k <= |entries| && i < |entries|
    ensures entries[i] in entries[..k] <==> i < k
  {
    if i < k {
      assert entries[..k][i] == entries[i];
    }
  }

  lemma LostIff(entries: seq<Path>, rename: string -> string, k: nat)
    requires DeepestFirst(entries) && k < |entries| && entries[k] != []
    ensures Lost(entries, rename, entries[k]) <==> Loses(entries, rename, k)
  {
  }

  /** Whoever stands where the next entry is to go is its host. */
  lemma OccupantIsHost(entries: seq<Path>, rename: string -> string, k: nat, p: Path)
    requires DeepestFirst(entries) && k < |entries| && Settles(rename) && p in entries && p != []
    requires Next(Elements(entries[..k]), entries[k]) && rename(Last(entries[k])) != Last(entries[k])
    ensures Image(p, Elements(entries[..k]), entries, rename) == Parent(entries[k]) + [rename(Last(entries[k]))]
       <==> Host(entries, rename, k, p)
  {
    var done := Elements(entries[..k]);
    AtTargetIff(p, entries[k], done, entries, rename);
    var i :| 0 <= i < |entries| && entries[i] == p;
    LostIff(entries, rename, i);
    assert rename(rename(Last(entries[k]))) == rename(Last(entries[k]));
    assert p in done <==> p in entries[..k];
  }

  /** Of two siblings that get one name, one that had it all along, or gets it first, is the other's rival. */
  lemma IsRival(entries: seq<Path>, rename: string -> string, i: nat, j: nat)
    requires DeepestFirst(entries) && i < |entries| && j < |entries| && Siblings(entries[i], entries[j])
    requires rename(Last(entries[i])) == rename(Last(entries[j]))
    requires Last(entries[i]) == rename(Last(entries[i])) || i < j
    ensures Rival(entries, rename, j, entries[i])
  {
    IndexIs(entries, j, i);
  }

  lemma {:induction false} OneHost(entries: seq<Path>, rename: string -> string, k: nat, p: Path, q: Path)
    requires DeepestFirst(entries) && k < |entries| && Host(entries, rename, k, p) && Host(entries, rename, k, q)
    ensures p == q
  {
    var i: nat :| i < |entries| && entries[i] == p;
    var j: nat :| j < |entries| && entries[j] == q;
    LastOf(p);
    LastOf(q);
    RivalsEitherWay(entries, rename, i, j);
  }

  /** Siblings that get one name. */
  ghost predicate OneName(rename: string -> string, p: Path, q: Path) {
    Siblings(p, q) && rename(Last(p)) == rename(Last(q))
  }

  /** Of two siblings that get one name, one is the other's rival; one that had it all along is. */
  lemma RivalsEitherWay(entries: seq<Path>, rename: string -> string, i: nat, j: nat)
    requires DeepestFirst(entries) && i < |entries| && j < |entries|
    ensures var p, q := entries[i], entries[j];
      OneName(rename, p, q) ==>
        && (Rival(entries, rename, j, p) || Rival(entries, rename, i, q))
        && (Last(p) == rename(Last(p)) ==> Rival(entries, rename, j, p))
        && (Last(q) == rename(Last(q)) ==> Rival(entries, rename, i, q))
  {
    var p, q := entries[i], entries[j];
    if OneName(rename, p, q) {
      if Last(p) == rename(Last(p)) || i < j {
        IsRival(entries, rename, i, j);
      }
      if Last(q) == rename(Last(q)) || j < i {
        IsRival(entries, rename, j, i);
      }
    }
  }

  /** The first rival whose name was not its own all along, if there is none whose was, has no rival itself. */
  lemma HostExists(entries: seq<Path>, rename: string -> string, k: nat, q: Path) returns (h: Path)
    requires DeepestFirst(entries) && k < |entries| && Rival(entries, rename, k, q)
    requires rename(Last(entries[k])) != Last(entries[k])
    ensures Host(entries, rename, k, h)
  {
    var n := rename(Last(entries[k]));
    if r :| Rival(entries, rename, k, r) && Last(r) == n {
      h := r;
    } else {
      var i :| 0 <= i < k && entries[..k][i] == q;
      h := FirstRival(entries, rename, k, i);
    }
  }

  lemma {:induction false} FirstRival(entries: seq<Path>, rename: string -> string, k: nat, i: nat) returns (h: Path)
    requires DeepestFirst(entries) && i < k < |entries| && Rival(entries, rename, k, entries[i])
    requires rename(Last(entries[k])) != Last(entries[k])
    requires forall r :: Rival(entries, rename, k, r) ==> Last(r) != rename(Last(entries[k]))
    ensures Host(entries, rename, k, h)
    decreases i
  {
    h := entries[i];
    if r :| Rival(entries, rename, i, r) {
      RivalOfRival(entries, rename, k, i, r);
      var j :| 0 <= j < i && entries[..i][j] == r;
      h := FirstRival(entries, rename, k, j);
    } else {
      assert forall j :: 0 <= j < |entries| && entries[j] == h ==> j == i;
    }
  }

  lemma RivalOfRival(entries: seq<Path>, rename: string -> string, k: nat, i: nat, r: Path)
    requires DeepestFirst(entries) && i < k < |entries| && Rival(entries, rename, k, entries[i])
    requires rename(Last(entries[k])) != Last(entries[k])
    requires forall r :: Rival(entries, rename, k, r) ==> Last(r) != rename(Last(entries[k]))
    requires Rival(entries, rename, i, r)
    ensures r in entries[..i] && Rival(entries, rename, k, r)
  {
    IndexIs(entries, i, k);
    assert r != entries[k];
    if r in entries[..i] {
      var j :| 0 <= j < i && entries[..i][j] == r;
      assert entries[..k][j] == r;
    }
    assert Rival(entries, rename, k, r);
  }

  /** The new place is taken exactly when the entry loses. */
  lemma TakenIff(tree: set<Path>, dirs: set<Path>, at: Places, entries: seq<Path>, k: nat, rename: string -> string)
    requires Collected(tree, dirs, entries) && k < |entries| && Settles(rename) && Visited(tree, at, entries, k, rename)
    requires entries[k] != [] && rename(Last(entries[k])) != Last(entries[k])
    ensures Taken(at, Parent(entries[k]) + [rename(Last(entries[k]))]) <==> Loses(entries, rename, k)
  {
    var f, dst := entries[k], Parent(entries[k]) + [rename(Last(entries[k]))];
    NextIs(entries, k);
    if Taken(at, dst) {
      var p :| p in at && at[p] == dst;
      assert p in Elements(entries);
      OccupantIsHost(entries, rename, k, p);
    }
    if Loses(entries, rename, k) {
      var q :| Rival(entries, rename, k, q);
      var h := HostExists(entries, rename, k, q);
      assert h in Elements(entries);
      OccupantIsHost(entries, rename, k, h);
      assert at[h] == dst;
    }
  }

  lemma InsideIsFree(tree: set<Path>, at: Places, f: Path, done: set<Path>, entries: seq<Path>, rename: string -> string)
    requires Next(done, f) && Settles(rename) && rename(Last(f)) != Last(f) && Standing(tree, at, done, entries, rename)
    requires forall p :: p in tree ==> p != [] && (|p| > |f| ==> p in done)
    ensures !Taken(at, Parent(f) + [rename(Last(f))] + [Last(f)])
  {
    assert Parent(f) + [rename(Last(f))] + [Last(f)] == Parent(f) + [rename(Last(f)), Last(f)];
    forall p | p in tree
      ensures at[p] != Parent(f) + [rename(Last(f)), Last(f)]
    {
      NoneInside(p, f, done, entries, rename);
    }
  }

  lemma MoveAll(tree: set<Path>, at: Places, f: Path, done: set<Path>, entries: seq<Path>, rename: string -> string)
    requires Next(done, f) && Settles(rename) && rename(Last(f)) != Last(f) && Standing(tree, at, done, entries, rename)
    ensures Standing(tree, Relocate(at, f, Target(f, entries, rename)), done + {f}, entries, rename)
  {
    forall p | p in tree
      ensures Moved(at[p], f, Target(f, entries, rename)) == Image(p, done + {f}, entries, rename)
    {
      MoveOne(p, f, done, entries, rename);
    }
  }

  lemma KeepAll(tree: set<Path>, at: Places, f: Path, done: set<Path>, entries: seq<Path>, rename: string -> string)
    requires f != [] && rename(Last(f)) == Last(f) && Standing(tree, at, done, entries, rename)
    ensures Standing(tree, at, done + {f}, entries, rename)
  {
    forall p | p in tree
      ensures Image(p, done + {f}, entries, rename) == Image(p, done, entries, rename)
    {
      UnchangedImage(p, f, done, entries, rename);
    }
  }

  /** Its host, if it loses, is a directory. */
  ghost predicate HostIsDirectory(dirs: set<Path>, entries: seq<Path>, rename: string -> string, k: nat)
    requires k < |entries| && entries[k] != []
  {
    Loses(entries, rename, k) ==> forall q :: Host(entries, rename, k, q) ==> q in dirs
  }

  ghost predicate HostsAreDirectories(dirs: set<Path>, entries: seq<Path>, rename: string -> string) {
    forall k :: 0 <= k < |entries| && entries[k] != [] ==> HostIsDirectory(dirs, entries, rename, k)
  }

  /** The move of one entry that gets another name: done unless a file has it. */
  method MoveNext(tree: set<Path>, dirs: set<Path>, at: Places, entries: seq<Path>, k: nat, rename: string -> string)
    returns (ok: bool, after: Places)
    requires Collected(tree, dirs, entries) && k < |entries| && entries[k] != [] && Settles(rename)
    requires rename(Last(entries[k])) != Last(entries[k]) && Visited(tree, at, entries, k, rename)
    ensures ok <==> HostIsDirectory(dirs, entries, rename, k)
    ensures ok ==> after == Relocate(at, entries[k], Target(entries[k], entries, rename))
  {
    var f := entries[k];
    NextIs(entries, k);
    TakenIff(tree, dirs, at, entries, k, rename);
    RoomInside(tree, dirs, at, entries, k, rename);
    HostStands(tree, dirs, at, entries, k, rename);
    TargetIs(entries, k, rename);
    ok, after := GitMv(at, dirs, f, Parent(f) + [rename(Last(f))]);
  }

  lemma TargetIs(entries: seq<Path>, k: nat, rename: string -> string)
    requires DeepestFirst(entries) && k < |entries| && entries[k] != []
    ensures var f := entries[k]; var dst := Parent(f) + [rename(Last(f))];
      Target(f, entries, rename) == if Loses(entries, rename, k) then dst + [Last(f)] else dst
  {
    LostIff(entries, rename, k);
    var f := entries[k];
    assert Parent(f) + [rename(Last(f)), Last(f)] == Parent(f) + [rename(Last(f))] + [Last(f)];
  }

  lemma RoomInside(tree: set<Path>, dirs: set<Path>, at: Places, entries: seq<Path>, k: nat, rename: string -> string)
    requires Collected(tree, dirs, entries) && k < |entries| && Settles(rename) && Visited(tree, at, entries, k, rename)
    requires entries[k] != [] && rename(Last(entries[k])) != Last(entries[k])
    ensures !Taken(at, Parent(entries[k]) + [rename(Last(entries[k]))] + [Last(entries[k])])
  {
    NextIs(entries, k);
    forall p | p in tree
      ensures p != [] && (|p| > |entries[k]| ==> p in Elements(entries[..k]))
    {
      assert p in Elements(entries);
      if |p| > |entries[k]| {
        DeeperIsDone(entries, k, p);
      }
    }
    InsideIsFree(tree, at, entries[k], Elements(entries[..k]), entries, rename);
  }

  /** One entry: it is where it was collected, and is moved unless a file has its new name. */
  method RenameNext(tree: set<Path>, dirs: set<Path>, at: Places, entries: seq<Path>, k: nat, rename: string -> string)
    returns (ok: bool, after: Places)
    requires Collected(tree, dirs, entries) && k < |entries| && entries[k] in tree && entries[k] != [] && Settles(rename)
    requires Visited(tree, at, entries, k, rename)
    ensures entries[k] in at && at[entries[k]] == entries[k]
    ensures ok <==> HostIsDirectory(dirs, entries, rename, k)
    ensures ok ==> Visited(tree, after, entries, k + 1, rename)
  {
    var f := entries[k];
    ghost var done := Elements(entries[..k]);
    NextIs(entries, k);
    NextStands(f, done, entries, rename);
    if rename(Last(f)) == Last(f) {
      KeepAll(tree, at, f, done, entries, rename);
      return true, at;
    }
    MoveAll(tree, at, f, done, entries, rename);
    ok, after := MoveNext(tree, dirs, at, entries, k, rename);
  }

  /** Those who stand where the next entry is to go are its hosts, and there is at most one. */
  lemma HostStands(tree: set<Path>, dirs: set<Path>, at: Places, entries: seq<Path>, k: nat, rename: string -> string)
    requires Collected(tree, dirs, entries) && k < |entries| && Settles(rename) && Visited(tree, at, entries, k, rename)
    requires entries[k] != [] && rename(Last(entries[k])) != Last(entries[k])
    ensures forall p :: p in at && at[p] == Parent(entries[k]) + [rename(Last(entries[k]))] ==> Host(entries, rename, k, p)
    ensures forall p, q :: Host(entries, rename, k, p) && Host(entries, rename, k, q) ==> p == q
  {
    NextIs(entries, k);
    forall p | p in at && at[p] == Parent(entries[k]) + [rename(Last(entries[k]))]
      ensures Host(entries, rename, k, p)
    {
      assert p in Elements(entries);
      OccupantIsHost(entries, rename, k, p);
    }
    forall p, q | Host(entries, rename, k, p) && Host(entries, rename, k, q)
      ensures p == q
    {
      OneHost(entries, rename, k, p, q);
    }
  }

  /** The loop of `rename_item`: every path it renames is there, whatever was renamed before. It comes to the end exactly
      when no entry's new name is that of a file, and then each entry stands where `Image` says. */
  method RenameTree(tree: set<Path>, dirs: set<Path>, entries: seq<Path>, rename: string -> string)
    returns (ok: bool, at: Places)
    requires Collected(tree, dirs, entries) && Settles(rename)
    ensures ok <==> HostsAreDirectories(dirs, entries, rename)
    ensures ok ==> at.Keys == tree && forall p :: p in tree ==> at[p] == Image(p, tree, entries, rename)
  {
    at := map p | p in tree :: p;
    Start(tree, entries, rename);
    for k := 0 to |entries|
      invariant Visited(tree, at, entries, k, rename)
      invariant forall i :: 0 <= i < k ==> entries[i] != [] && HostIsDirectory(dirs, entries, rename, i)
    {
      assert entries[k] in Elements(entries);
      ok, at := RenameNext(tree, dirs, at, entries, k, rename);
      if !ok {
        return;
      }
    }
    assert entries[..|entries|] == entries;
    ok := true;
  }

  lemma Start(tree: set<Path>, entries: seq<Path>, rename: string -> string)
    ensures Visited(tree, map p | p in tree :: p, entries, 0, rename)
  {
    assert Elements(entries[..0]) == {};
    forall p | p in tree
      ensures Image(p, {}, entries, rename) == p
    {
      ImageUntouched(p, {}, entries, rename);
    }
  }

  // ----- what becomes of the tree

  lemma {:induction false} ImageIsRenamed(p: Path, tree: set<Path>, dirs: set<Path>, entries: seq<Path>, rename: string -> string)
    requires Collected(tree, dirs, entries) && NoCollision(tree, rename) && (p == [] || p in tree)
    ensures Image(p, tree, entries, rename) == Renamed(p, rename)
  {
    if p != [] {
      ImageIsRenamed(Parent(p), tree, dirs, entries, rename);
      NoneLost(p, tree, dirs, entries, rename);
    }
  }

  lemma {:induction false} NoneLost(p: Path, tree: set<Path>, dirs: set<Path>, entries: seq<Path>, rename: string -> string)
    requires Collected(tree, dirs, entries) && NoCollision(tree, rename)
    ensures !Lost(entries, rename, p)
  {
    forall k, q | 0 <= k < |entries| && q in entries && Siblings(q, entries[k])
      ensures rename(Last(q)) != rename(Last(entries[k]))
    {
      assert q in Elements(entries) && entries[k] in Elements(entries);
    }
  }

  /** Of two entries of a directory that get one name, one loses. */
  lemma OneLoses(p: Path, q: Path, tree: set<Path>, dirs: set<Path>, entries: seq<Path>, rename: string -> string)
    requires Collected(tree, dirs, entries) && Settles(rename)
    requires p in tree && q in tree && Siblings(p, q) && rename(Last(p)) == rename(Last(q))
    ensures Lost(entries, rename, p) || Lost(entries, rename, q)
  {
    assert p in Elements(entries) && q in Elements(entries);
    var i :| 0 <= i < |entries| && entries[i] == p;
    var j :| 0 <= j < |entries| && entries[j] == q;
    LastOf(p);
    LastOf(q);
    if Last(p) == rename(Last(p)) || (Last(q) != rename(Last(q)) && i < j) {
      IsRival(entries, rename, i, j);
      assert Loses(entries, rename, j);
    } else {
      IsRival(entries, rename, j, i);
      assert Loses(entries, rename, i);
    }
  }

  lemma {:induction false} RenamedLength(p: Path, rename: string -> string)
    ensures |Renamed(p, rename)| == |p|
  {
    if p != [] {
      RenamedLength(Parent(p), rename);
    }
  }

  /** Every component of every path is renamed if and only if no two entries of a directory get one name. */
  lemma AllRenamedIff(tree: set<Path>, dirs: set<Path>, entries: seq<Path>, rename: string -> string)
    requires Collected(tree, dirs, entries) && Settles(rename)
    ensures (forall p :: p in tree ==> Image(p, tree, entries, rename) == Renamed(p, rename)) <==> NoCollision(tree, rename)
    ensures NoCollision(tree, rename) ==> HostsAreDirectories(dirs, entries, rename)
  {
    if NoCollision(tree, rename) {
      forall p | p in tree
        ensures Image(p, tree, entries, rename) == Renamed(p, rename)
      {
        ImageIsRenamed(p, tree, dirs, entries, rename);
      }
      forall k | 0 <= k < |entries| && entries[k] != []
        ensures !Loses(entries, rename, k)
      {
        NoneLost(entries[k], tree, dirs, entries, rename);
      }
    } else {
      var p, q :| p in tree && q in tree && Siblings(p, q) && rename(Last(p)) == rename(Last(q));
      OneLoses(p, q, tree, dirs, entries, rename);
      var l := if Lost(entries, rename, p) then p else q;
      RenamedLength(l, rename);
      assert |Tail(l, tree, entries, rename)| == 2;
      assert |Image(l, tree, entries, rename)| > |l|;
    }
  }

  // ----- ids

  /** The ids handed out: the numbers above the largest used, one after the other. */
  method Allocate(used: set<nat>, items: nat) returns (ids: seq<nat>)
    ensures |ids| == items
    ensures forall i :: 0 <= i < items ==> ids[i] !in used && forall u :: u in used ==> u < ids[i]
    ensures forall i :: 0 < i < items ==> ids[i] == ids[i - 1] + 1
    ensures items > 0 ==> ids[0] == 1 || exists u :: u in used && ids[0] == u + 1
  {
    var top := Largest(used);
    var taken, next := used, top + 1;
    ids := [];
    for k := 0 to items
      invariant |ids| == k && next == top + 1 + k
      invariant forall i :: 0 <= i < k ==> ids[i] == top + 1 + i
      invariant used <= taken && forall u :: u in taken ==> u < next
    {
      // The source skips taken numbers here; above the largest none is taken.
      assert next !in taken;
      taken := taken + {next};
      ids := ids + [next];
      next := next + 1;
    }
  }

  method Largest(s: set<nat>) returns (top: nat)
    ensures forall u :: u in s ==> u <= top
    ensures top == 0 || top in s
  {
    top := 0;
    var left := s;
    while left != {}
      invariant left <= s && (top == 0 || top in s)
      invariant forall u :: u in s && u !in left ==> u <= top
    {
      var u :| u in left;
      if u > top {
        top := u;
      }
      left := left - {u};
    }
  }
}
