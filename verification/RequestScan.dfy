/** A `requestSequence`: the scan the generated test runs (`bajutsu/codegen/playwright.py`) and the one the runner
    runs (`bajutsu/common/assertions/evaluate/_functions.py`), against what both stand for. */
module RequestScan {

  type Matcher<!E> = E -> bool

  /** The matchers met in order, each by an exchange of its own at a later place than the one before. */
  ghost predicate Observed<E>(seen: seq<E>, wanted: seq<Matcher<E>>) {
    exists places: seq<nat> :: Places(seen, wanted, places)
  }

  predicate Places<E>(seen: seq<E>, wanted: seq<Matcher<E>>, places: seq<nat>) {
    && |places| == |wanted|
    && (forall k :: 0 <= k < |wanted| ==> places[k] < |seen| && wanted[k](seen[places[k]]))
    && (forall j, k :: 0 <= j < k < |wanted| ==> places[j] < places[k])
  }

  /** How many matchers the greedy scan has passed. */
  function Passed<E>(seen: seq<E>, wanted: seq<Matcher<E>>): (n: nat)
    ensures n <= |wanted|
  {
    if seen == [] then 0
    else
      var n := Passed(seen[..|seen| - 1], wanted);
      if n < |wanted| && wanted[n](seen[|seen| - 1]) then n + 1 else n
  }

  /** What the scan has passed is observed. */
  lemma {:induction false} PassedIsObserved<E>(seen: seq<E>, wanted: seq<Matcher<E>>) returns (places: seq<nat>)
    ensures Places(seen, wanted[..Passed(seen, wanted)], places)
  {
    if seen == [] {
      places := [];
    } else {
      var init := seen[..|seen| - 1];
      places := PassedIsObserved(init, wanted);
      assert forall k :: 0 <= k < |places| ==> seen[places[k]] == init[places[k]];
      if Passed(seen, wanted) > Passed(init, wanted) {
        places := places + [|seen| - 1];
      }
    }
  }

  /** The greedy scan is never behind: as many matchers as any choice of places meets, it has passed. */
  lemma {:induction false} GreedyIsBest<E>(seen: seq<E>, wanted: seq<Matcher<E>>, n: nat, places: seq<nat>)
    requires n <= |wanted| && Places(seen, wanted[..n], places)
    ensures Passed(seen, wanted) >= n
    decreases |seen|
  {
    if n > 0 {
      var last := places[n - 1];
      assert last < |seen|;
      var init := seen[..|seen| - 1];
      var before := places[..n - 1];
      assert wanted[..n][n - 1] == wanted[n - 1];
      forall k | 0 <= k < n - 1
        ensures before[k] < last && wanted[..n - 1][k] == wanted[..n][k]
      {
      }
      if last == |seen| - 1 {
        assert Places(init, wanted[..n - 1], before);
        GreedyIsBest(init, wanted, n - 1, before);
      } else {
        assert Places(init, wanted[..n], places);
        GreedyIsBest(init, wanted, n, places);
      }
    }
  }

  lemma PassedIff<E>(seen: seq<E>, wanted: seq<Matcher<E>>)
    ensures Passed(seen, wanted) == |wanted| <==> Observed(seen, wanted)
  {
    assert wanted[..|wanted|] == wanted;
    if Passed(seen, wanted) == |wanted| {
      var places := PassedIsObserved(seen, wanted);
    }
    if places :| Places(seen, wanted, places) {
      GreedyIsBest(seen, wanted, |wanted|, places);
    }
  }

  /** The emitted loop over the exchanges; the test expects `i` to be the number of matchers. */
  method EmittedScan<E>(seen: seq<E>, wanted: seq<Matcher<E>>) returns (i: nat)
    ensures i == |wanted| <==> Observed(seen, wanted)
  {
    i := 0;
    for k := 0 to |seen|
      invariant i == Passed(seen[..k], wanted)
    {
      assert seen[..k + 1][..k] == seen[..k];
      if i < |wanted| && wanted[i](seen[k]) {
        i := i + 1;
      }
    }
    assert seen[..|seen|] == seen;
    PassedIff(seen, wanted);
  }

  /** The runner's loop over the matchers. */
  method RunnerScan<E>(seen: seq<E>, wanted: seq<Matcher<E>>) returns (ok: bool)
    ensures ok <==> Observed(seen, wanted)
  {
    var i := 0;
    PassedIff(seen, wanted);
    for pos := 0 to |wanted|
      invariant i <= |seen| && Passed(seen[..i], wanted) == pos
    {
      while i < |seen| && !wanted[pos](seen[i])
        invariant i <= |seen| && Passed(seen[..i], wanted) == pos
      {
        assert seen[..i + 1][..i] == seen[..i];
        i := i + 1;
      }
      if i >= |seen| {
        assert seen[..i] == seen;
        return false;
      }
      assert seen[..i + 1][..i] == seen[..i];
      i := i + 1;
    }
    PassedGrows(seen, wanted, i);
    ok := true;
  }

  lemma {:induction false} PassedGrows<E>(seen: seq<E>, wanted: seq<Matcher<E>>, i: nat)
    requires i <= |seen|
    ensures Passed(seen[..i], wanted) <= Passed(seen, wanted)
  {
    if i == |seen| {
      assert seen[..i] == seen;
    } else {
      var init := seen[..|seen| - 1];
      PassedGrows(init, wanted, i);
      assert init[..i] == seen[..i];
    }
  }
}
