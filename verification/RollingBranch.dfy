/** The rolling-branch publish protocol of `scripts/refresh_pr.py`: any number of runs, human pushes
    and base-branch merges, interleaved one git operation at a time. */
module RollingBranch {

  datatype Option<+T> = None | Some(value: T)

  /** A commit's id; ids are content addresses, so a commit never changes, and its parents exist first. */
  type Sha = nat
  type Email = string
  type RunId = nat

  datatype Commit = Commit(parents: set<Sha>, committer: Email)
  type Store = map<Sha, Commit>

  ghost predicate Grounded(store: Store) {
    forall s :: s in store ==> HasParents(store, store[s], s)
  }

  /** The commit's parents are there, and older than `s`. */
  ghost predicate HasParents(store: Store, c: Commit, s: Sha) {
    forall p :: p in c.parents ==> p in store && p < s
  }

  /** `s` and all its ancestors. */
  ghost function History(store: Store, s: Sha): set<Sha>
    requires Grounded(store) && s in store
    decreases s
  {
    {s} + set p, a | p in store[s].parents && a in History(store, p) :: a
  }

  /** Where one publish run stands. `head` is the base commit it checked out and `tip` what it saw of
      the rolling branch. */
  datatype Run =
    | Started(head: Sha)
    | Listed(head: Sha)
    | Inspected(head: Sha, tip: Option<Sha>)
    | Approved(head: Sha, tip: Option<Sha>)
    | Committed(tip: Option<Sha>, commit: Sha)
    | Pushed
    | Skipped
    | Failed

  datatype World = World(store: Store, base: Sha, remote: Option<Sha>, runs: map<RunId, Run>)

  ghost predicate WellFormed(w: World) {
    && Grounded(w.store)
    && w.base in w.store
    && (w.remote.Some? ==> w.remote.value in w.store)
  }

  ghost function Branch(w: World): set<Sha>
    requires WellFormed(w)
  {
    if w.remote.Some? then History(w.store, w.remote.value) else {}
  }

  /** The human commits on the rolling branch that are not on the base branch. */
  ghost function HumanWork(w: World, bot: Email): set<Sha>
    requires WellFormed(w)
  {
    set c | c in Branch(w) && c in w.store && w.store[c].committer != bot && c !in History(w.store, w.base)
  }

  // ----- the steps of a run

  /** `is_bot_authored`: a branch that does not exist, or whose tip the bot committed. */
  predicate IsBotAuthored(store: Store, tip: Option<Sha>, bot: Email) {
    tip == None || (tip.value in store && store[tip.value].committer == bot)
  }

  ghost predicate Start(w: World, w': World, id: RunId) {
    id !in w.runs && w' == w.(runs := w.runs[id := Started(w.base)])
  }

  /** `git ls-remote`: no branch settles the tip at once. */
  ghost predicate List(w: World, w': World, id: RunId) {
    && id in w.runs && w.runs[id].Started?
    && var head := w.runs[id].head;
       w' == w.(runs := w.runs[id := if w.remote == None then Inspected(head, None) else Listed(head)])
  }

  /** `git fetch`: the branch may have moved since it was listed, or gone. */
  ghost predicate Fetch(w: World, w': World, id: RunId) {
    && id in w.runs && w.runs[id].Listed?
    && w' == w.(runs := w.runs[id := if w.remote == None then Failed else Inspected(w.runs[id].head, w.remote)])
  }

  ghost predicate Guard(w: World, w': World, id: RunId, bot: Email) {
    && id in w.runs && w.runs[id].Inspected?
    && var Inspected(head, tip) := w.runs[id];
       w' == w.(runs := w.runs[id := if IsBotAuthored(w.store, tip, bot) then Approved(head, tip) else Skipped])
  }

  /** `git checkout -B` and `git commit`: one bot commit on the base commit checked out. */
  ghost predicate MakeCommit(w: World, w': World, id: RunId, bot: Email) {
    && id in w.runs && w.runs[id].Approved?
    && var Approved(head, tip) := w.runs[id];
       exists c :: c !in w.store && head < c
         && w' == w.(store := w.store[c := Commit({head}, bot)], runs := w.runs[id := Committed(tip, c)])
  }

  /** Whether the remote takes the push: with a lease, only while the branch is still at `tip`; without
      one, only a new branch or a fast-forward. */
  ghost predicate PushAccepted(w: World, tip: Option<Sha>, commit: Sha)
    requires WellFormed(w) && commit in w.store
  {
    if tip == None then w.remote == None || w.remote.value in History(w.store, commit)
    else w.remote == tip
  }

  ghost predicate Push(w: World, w': World, id: RunId)
    requires WellFormed(w)
  {
    && id in w.runs && w.runs[id].Committed? && w.runs[id].commit in w.store
    && var Committed(tip, commit) := w.runs[id];
       w' == if PushAccepted(w, tip, commit)
             then w.(remote := Some(commit), runs := w.runs[id := Pushed])
             else w.(runs := w.runs[id := Failed])
  }

  // ----- the steps of everybody else

  ghost predicate Extends(store: Store, store': Store) {
    Grounded(store') && forall s :: s in store ==> s in store' && store'[s] == store[s]
  }

  /** Anyone may create commits and put the rolling branch anywhere, or delete it. */
  ghost predicate Outside(w: World, w': World) {
    Extends(w.store, w'.store) && w' == w.(store := w'.store, remote := w'.remote) && WellFormed(w')
  }

  /** The base branch only gains history. */
  ghost predicate Merge(w: World, w': World)
    requires WellFormed(w)
  {
    && Extends(w.store, w'.store) && w' == w.(store := w'.store, base := w'.base) && WellFormed(w')
    && w.base in History(w'.store, w'.base)
  }

  /** A human push leaves either a tip a human committed, or no human work on the branch. */
  ghost predicate TipTellsOwner(w: World, bot: Email)
    requires WellFormed(w)
  {
    w.remote.Some? && w.store[w.remote.value].committer == bot ==> HumanWork(w, bot) == {}
  }

  ghost predicate RunStep(w: World, w': World, id: RunId, bot: Email)
    requires WellFormed(w)
  {
    || Start(w, w', id) || List(w, w', id) || Fetch(w, w', id)
    || Guard(w, w', id, bot) || MakeCommit(w, w', id, bot) || Push(w, w', id)
  }

  /** A step of some run, or a merge. */
  ghost predicate QuietNext(w: World, w': World, bot: Email)
    requires WellFormed(w)
  {
    (exists id :: RunStep(w, w', id, bot)) || Merge(w, w')
  }

  ghost predicate Next(w: World, w': World, bot: Email)
    requires WellFormed(w)
  {
    QuietNext(w, w', bot) || Outside(w, w')
  }

  /** Human commits the branch had and lost. */
  ghost function Lost(w: World, w': World, bot: Email): set<Sha>
    requires WellFormed(w) && WellFormed(w')
  {
    HumanWork(w, bot) - Branch(w')
  }

  // ----- what every step keeps

  ghost predicate RunOk(w: World, run: Run, bot: Email)
    requires WellFormed(w)
  {
    match run
    case Started(head) => head in History(w.store, w.base)
    case Listed(head) => head in History(w.store, w.base)
    case Inspected(head, tip) => head in History(w.store, w.base) && (tip.Some? ==> tip.value in w.store)
    case Approved(head, tip) => head in History(w.store, w.base) && IsBotAuthored(w.store, tip, bot)
    case Committed(tip, c) =>
      && c in w.store && w.store[c].committer == bot && IsBotAuthored(w.store, tip, bot)
      && w.store[c].parents <= History(w.store, w.base)
    case _ => true
  }

  ghost predicate RunsOk(w: World, bot: Email) {
    WellFormed(w) && forall id :: id in w.runs ==> RunOk(w, w.runs[id], bot)
  }

  lemma ParentIsOlder(store: Store, s: Sha, p: Sha)
    requires Grounded(store) && s in store && p in store[s].parents
    ensures p in store && p < s
  {
    assert HasParents(store, store[s], s);
  }

  lemma {:induction false} HistoryInStore(store: Store, s: Sha)
    requires Grounded(store) && s in store
    ensures s in History(store, s) && forall a :: a in History(store, s) ==> a in store
    decreases s
  {
    forall p | p in store[s].parents
      ensures forall a :: a in History(store, p) ==> a in store
    {
      ParentIsOlder(store, s, p);
      HistoryInStore(store, p);
    }
  }

  lemma {:induction false} HistoryStable(store: Store, store': Store, s: Sha)
    requires Grounded(store) && Extends(store, store') && s in store
    ensures History(store', s) == History(store, s)
    decreases s
  {
    forall p | p in store[s].parents
      ensures p in store && p in store' && History(store', p) == History(store, p)
    {
      ParentIsOlder(store, s, p);
      HistoryStable(store, store', p);
    }
    SameHistory(store, store', s);
  }

  lemma SameHistory(store: Store, store': Store, s: Sha)
    requires Grounded(store) && Grounded(store') && s in store && s in store' && store'[s] == store[s]
    requires forall p :: p in store[s].parents ==> p in store && p in store' && History(store', p) == History(store, p)
    ensures History(store', s) == History(store, s)
  {
  }

  lemma {:induction false} HistoryTransitive(store: Store, a: Sha, b: Sha)
    requires Grounded(store) && b in store && a in History(store, b)
    ensures a in store && History(store, a) <= History(store, b)
    decreases b
  {
    HistoryInStore(store, b);
    if a != b {
      var p :| p in store[b].parents && a in History(store, p);
      HistoryTransitive(store, a, p);
    }
  }

  /** Growing the store and the base branch leaves every run's promise standing. */
  lemma RunStaysOk(w: World, w': World, run: Run, bot: Email)
    requires WellFormed(w) && WellFormed(w') && Extends(w.store, w'.store)
    requires w.base in History(w'.store, w'.base) && RunOk(w, run, bot)
    ensures RunOk(w', run, bot)
  {
    HistoryStable(w.store, w'.store, w.base);
    HistoryTransitive(w'.store, w.base, w'.base);
  }

  lemma ExtendByCommit(w: World, c: Sha, head: Sha, bot: Email)
    requires WellFormed(w) && c !in w.store && head < c && head in w.store
    ensures Extends(w.store, w.store[c := Commit({head}, bot)])
    ensures History(w.store[c := Commit({head}, bot)], c) == {c} + History(w.store, head)
  {
    StoreGrows(w.store, c, head, bot);
    HistoryStable(w.store, w.store[c := Commit({head}, bot)], head);
  }

  lemma StoreGrows(store: Store, c: Sha, head: Sha, bot: Email)
    requires Grounded(store) && c !in store && head < c && head in store
    ensures Extends(store, store[c := Commit({head}, bot)])
  {
    var store' := store[c := Commit({head}, bot)];
    forall s | s in store'
      ensures HasParents(store', store'[s], s)
    {
      assert s != c ==> store'[s] == store[s] && HasParents(store, store[s], s);
    }
  }

  /** Every step keeps every run's promise: what it checked out is base history, and its commit is the
      bot's own, straight on top of that. */
  lemma StepKeepsRuns(w: World, w': World, bot: Email)
    requires RunsOk(w, bot) && Next(w, w', bot)
    ensures RunsOk(w', bot)
  {
    HistoryInStore(w.store, w.base);
    if Merge(w, w') {
      GrowthKeepsRuns(w, w', bot);
    } else if Outside(w, w') {
      HistoryInStore(w'.store, w.base);
      GrowthKeepsRuns(w, w', bot);
    } else {
      var id :| RunStep(w, w', id, bot);
      OwnStepKeepsRuns(w, w', id, bot);
    }
  }

  lemma GrowthKeepsRuns(w: World, w': World, bot: Email)
    requires RunsOk(w, bot) && WellFormed(w') && Extends(w.store, w'.store) && w'.runs == w.runs
    requires w.base in History(w'.store, w'.base)
    ensures RunsOk(w', bot)
  {
    forall id | id in w.runs
      ensures RunOk(w', w.runs[id], bot)
    {
      assert RunOk(w, w.runs[id], bot);
      RunStaysOk(w, w', w.runs[id], bot);
    }
  }

  lemma OwnStepKeepsRuns(w: World, w': World, id: RunId, bot: Email)
    requires RunsOk(w, bot) && RunStep(w, w', id, bot)
    ensures RunsOk(w', bot)
  {
    if MakeCommit(w, w', id, bot) {
      CommitKeepsRuns(w, w', id, bot);
    } else if Push(w, w', id) {
      PushKeepsRuns(w, w', id, bot);
    } else {
      assert w'.store == w.store && w'.base == w.base && w'.remote == w.remote;
      OwnRunStaysOk(w, w', id, bot);
      forall other | other in w'.runs
        ensures RunOk(w', w'.runs[other], bot)
      {
        assert other != id ==> RunOk(w, w.runs[other], bot);
      }
    }
  }

  lemma PushKeepsRuns(w: World, w': World, id: RunId, bot: Email)
    requires RunsOk(w, bot) && Push(w, w', id)
    ensures RunsOk(w', bot)
  {
    assert RunOk(w, w.runs[id], bot);
    forall other | other in w'.runs
      ensures RunOk(w', w'.runs[other], bot)
    {
      assert other != id ==> RunOk(w, w.runs[other], bot);
    }
  }

  /** The run's own promise, where it only looks. */
  lemma OwnRunStaysOk(w: World, w': World, id: RunId, bot: Email)
    requires RunsOk(w, bot)
    requires Start(w, w', id) || List(w, w', id) || Fetch(w, w', id) || Guard(w, w', id, bot)
    ensures WellFormed(w') && RunOk(w', w'.runs[id], bot)
  {
    if Start(w, w', id) {
      HistoryInStore(w.store, w.base);
    } else {
      assert RunOk(w, w.runs[id], bot);
    }
  }

  lemma CommitKeepsRuns(w: World, w': World, id: RunId, bot: Email)
    requires RunsOk(w, bot) && MakeCommit(w, w', id, bot)
    ensures RunsOk(w', bot) && Extends(w.store, w'.store)
  {
    HistoryInStore(w.store, w.base);
    var Approved(head, tip) := w.runs[id];
    assert RunOk(w, w.runs[id], bot);
    var c :| c !in w.store && head < c
      && w' == w.(store := w.store[c := Commit({head}, bot)], runs := w.runs[id := Committed(tip, c)]);
    ExtendByCommit(w, c, head, bot);
    HistoryStable(w.store, w'.store, w.base);
    HistoryInStore(w'.store, w.base);
    forall other | other in w'.runs
      ensures RunOk(w', w'.runs[other], bot)
    {
      if other != id {
        RunStaysOk(w, w', w.runs[other], bot);
      }
    }
  }

  // ----- what a push can lose

  /** Under a run's commit lies only base history. */
  lemma BotCommitIsClean(w: World, c: Sha, bot: Email)
    requires RunsOk(w, bot) && c in w.store && w.store[c].committer == bot
    requires w.store[c].parents <= History(w.store, w.base)
    ensures forall a :: a in History(w.store, c) ==> a == c || a in History(w.store, w.base)
  {
    HistoryInStore(w.store, w.base);
    forall p | p in w.store[c].parents
      ensures History(w.store, p) <= History(w.store, w.base)
    {
      HistoryTransitive(w.store, p, w.base);
    }
  }

  ghost predicate Forced(w: World, id: RunId)
    requires WellFormed(w)
  {
    id in w.runs && w.runs[id].Committed? && w.runs[id].tip.Some? && w.remote == w.runs[id].tip
  }

  /** A push loses human work exactly when its lease holds, and then all of it; a lease only ever names
      a tip the bot committed. */
  lemma PushLoses(w: World, w': World, id: RunId, bot: Email)
    requires RunsOk(w, bot) && Push(w, w', id)
    ensures WellFormed(w')
    ensures Lost(w, w', bot) == if Forced(w, id) then HumanWork(w, bot) else {}
    ensures Forced(w, id) ==> w.store[w.remote.value].committer == bot
  {
    assert RunOk(w, w.runs[id], bot);
    var Committed(tip, c) := w.runs[id];
    BotCommitIsClean(w, c, bot);
    if PushAccepted(w, tip, c) && tip == None && w.remote.Some? {
      HistoryInStore(w.store, c);
      HistoryTransitive(w.store, w.remote.value, c);
    }
  }

  /** No other step of a run, and no merge, changes what is on the branch. */
  lemma OtherStepsLoseNothing(w: World, w': World, id: RunId, bot: Email)
    requires RunsOk(w, bot) && RunsOk(w', bot)
    requires (RunStep(w, w', id, bot) && !Push(w, w', id)) || Merge(w, w')
    ensures Lost(w, w', bot) == {} && HumanWork(w', bot) <= HumanWork(w, bot)
    ensures TipTellsOwner(w, bot) ==> TipTellsOwner(w', bot)
  {
    if MakeCommit(w, w', id, bot) {
      CommitKeepsRuns(w, w', id, bot);
    }
    HistoryStable(w.store, w'.store, w.base);
    if w.remote.Some? {
      HistoryStable(w.store, w'.store, w.remote.value);
      HistoryInStore(w.store, w.remote.value);
    }
    HistoryTransitive(w'.store, if Merge(w, w') then w.base else w'.base, w'.base) by {
      HistoryInStore(w'.store, w'.base);
    }
  }

  lemma PushKeepsOwner(w: World, w': World, id: RunId, bot: Email)
    requires RunsOk(w, bot) && Push(w, w', id) && TipTellsOwner(w, bot)
    ensures WellFormed(w') && TipTellsOwner(w', bot)
  {
    assert RunOk(w, w.runs[id], bot);
    BotCommitIsClean(w, w.runs[id].commit, bot);
  }

  // ----- whole behaviours

  /** One step, an outside push keeping the tip honest. */
  ghost predicate HonestNext(w: World, w': World, bot: Email)
    requires WellFormed(w)
  {
    QuietNext(w, w', bot) || (Outside(w, w') && TipTellsOwner(w', bot))
  }

  ghost predicate HonestBehaviour(b: seq<World>, bot: Email) {
    && b != []
    && WellFormed(b[0]) && b[0].runs == map[] && TipTellsOwner(b[0], bot)
    && forall i :: 0 <= i < |b| - 1 ==> WellFormed(b[i]) && HonestNext(b[i], b[i + 1], bot)
  }

  lemma HonestStep(w: World, w': World, bot: Email)
    requires RunsOk(w, bot) && TipTellsOwner(w, bot) && HonestNext(w, w', bot)
    ensures RunsOk(w', bot) && TipTellsOwner(w', bot)
    ensures forall id :: Push(w, w', id) ==> Lost(w, w', bot) == {}
  {
    StepKeepsRuns(w, w', bot);
    forall id | Push(w, w', id)
      ensures Lost(w, w', bot) == {}
    {
      PushLoses(w, w', id, bot);
    }
    if Merge(w, w') {
      OtherStepsLoseNothing(w, w', 0, bot);
    } else if id :| RunStep(w, w', id, bot) {
      if Push(w, w', id) {
        PushKeepsOwner(w, w', id, bot);
      } else {
        OtherStepsLoseNothing(w, w', id, bot);
      }
    }
  }

  lemma {:induction false} HonestInvariant(b: seq<World>, bot: Email, i: nat)
    requires HonestBehaviour(b, bot) && i < |b|
    ensures RunsOk(b[i], bot) && TipTellsOwner(b[i], bot)
  {
    if i > 0 {
      HonestInvariant(b, bot, i - 1);
      assert HonestNext(b[i - 1], b[i], bot);
      HonestStep(b[i - 1], b[i], bot);
    }
  }

  /** Over every interleaving of any number of runs with honest human pushes and merges, no bot push
      drops a human commit, and a bot-committed tip never has one under it. */
  lemma NoHumanWorkLost(b: seq<World>, bot: Email, i: nat, id: RunId)
    requires HonestBehaviour(b, bot) && i < |b| - 1
    ensures RunsOk(b[i], bot) && RunsOk(b[i + 1], bot) && TipTellsOwner(b[i], bot)
    ensures Push(b[i], b[i + 1], id) ==> Lost(b[i], b[i + 1], bot) == {}
  {
    HonestInvariant(b, bot, i);
    HonestInvariant(b, bot, i + 1);
    assert HonestNext(b[i], b[i + 1], bot);
    HonestStep(b[i], b[i + 1], bot);
  }

  // ----- and without honest pushes

  /** From here on only runs and merges move. */
  ghost predicate Unattended(b: seq<World>, w: World, bot: Email) {
    && b != [] && b[0] == w
    && forall i :: 0 <= i < |b| - 1 ==>
      WellFormed(b[i]) && QuietNext(b[i], b[i + 1], bot)
  }

  ghost predicate LosesSomewhere(b: seq<World>, bot: Email) {
    exists i :: 0 <= i < |b| - 1 && WellFormed(b[i]) && WellFormed(b[i + 1]) && Lost(b[i], b[i + 1], bot) != {}
  }

  lemma {:induction false} UnattendedKeeps(b: seq<World>, w: World, bot: Email, i: nat)
    requires Unattended(b, w, bot) && RunsOk(w, bot) && TipTellsOwner(w, bot) && i < |b|
    ensures RunsOk(b[i], bot) && TipTellsOwner(b[i], bot)
    ensures i > 0 ==> RunsOk(b[i - 1], bot) && Lost(b[i - 1], b[i], bot) == {}
  {
    if i > 0 {
      UnattendedKeeps(b, w, bot, i - 1);
      var u, v := b[i - 1], b[i];
      assert QuietNext(u, v, bot);
      HonestStep(u, v, bot);
      if Merge(u, v) {
        OtherStepsLoseNothing(u, v, 0, bot);
      } else {
        var id :| RunStep(u, v, id, bot);
        if !Push(u, v, id) {
          OtherStepsLoseNothing(u, v, id, bot);
        }
      }
    }
  }

  function Standing(w: World, id: RunId, run: Run): World {
    w.(runs := w.runs[id := run])
  }

  /** A run that nothing disturbs: it lists, fetches, passes the guard, commits and pushes. */
  ghost function OneRun(w: World, id: RunId, c: Sha, bot: Email): seq<World>
    requires w.remote.Some?
  {
    var committed := Standing(w, id, Committed(w.remote, c)).(store := w.store[c := Commit({w.base}, bot)]);
    [w, Standing(w, id, Started(w.base)), Standing(w, id, Listed(w.base)),
     Standing(w, id, Inspected(w.base, w.remote)), Standing(w, id, Approved(w.base, w.remote)),
     committed, committed.(remote := Some(c), runs := w.runs[id := Pushed])]
  }

  lemma OneRunDecides(w: World, id: RunId, c: Sha, bot: Email)
    requires RunsOk(w, bot) && w.remote.Some? && w.store[w.remote.value].committer == bot && id !in w.runs
    ensures var b := OneRun(w, id, c, bot);
      Start(b[0], b[1], id) && List(b[1], b[2], id) && Fetch(b[2], b[3], id) && Guard(b[3], b[4], id, bot)
  {
    var b := OneRun(w, id, c, bot);
    assert b[1].runs[id := Listed(w.base)] == b[2].runs;
    assert b[2].runs[id := Inspected(w.base, w.remote)] == b[3].runs;
    assert b[3].runs[id := Approved(w.base, w.remote)] == b[4].runs;
  }

  lemma OneRunPushes(w: World, id: RunId, c: Sha, bot: Email)
    requires RunsOk(w, bot) && w.remote.Some? && c !in w.store && w.base < c
    ensures var b := OneRun(w, id, c, bot);
      MakeCommit(b[4], b[5], id, bot) && WellFormed(b[5]) && Push(b[5], b[6], id) && Forced(b[5], id)
  {
    OneRunCommits(w, id, c, bot);
    var b := OneRun(w, id, c, bot);
    assert b[5].runs[id := Pushed] == b[6].runs;
  }

  lemma OneRunCommits(w: World, id: RunId, c: Sha, bot: Email)
    requires RunsOk(w, bot) && w.remote.Some? && c !in w.store && w.base < c
    ensures var b := OneRun(w, id, c, bot); MakeCommit(b[4], b[5], id, bot) && WellFormed(b[5])
  {
    ApprovedCommits(w, id, c, w.remote, bot);
  }

  lemma ApprovedCommits(w: World, id: RunId, c: Sha, tip: Option<Sha>, bot: Email)
    requires WellFormed(w) && c !in w.store && w.base < c
    ensures var w' := Standing(w, id, Committed(tip, c)).(store := w.store[c := Commit({w.base}, bot)]);
      MakeCommit(Standing(w, id, Approved(w.base, tip)), w', id, bot) && WellFormed(w')
  {
    StoreGrows(w.store, c, w.base, bot);
    assert w.runs[id := Approved(w.base, tip)][id := Committed(tip, c)] == w.runs[id := Committed(tip, c)];
  }

  lemma OneRunIsUnattended(w: World, id: RunId, c: Sha, bot: Email)
    requires RunsOk(w, bot) && w.remote.Some? && w.store[w.remote.value].committer == bot
    requires id !in w.runs && c !in w.store && w.base < c
    ensures var b := OneRun(w, id, c, bot);
      Unattended(b, w, bot) && RunsOk(b[5], bot) && Push(b[5], b[6], id) && Forced(b[5], id)
    ensures HumanWork(OneRun(w, id, c, bot)[5], bot) == HumanWork(w, bot)
  {
    var b := OneRun(w, id, c, bot);
    OneRunSteps(w, id, c, bot);
    OneRunKeeps(b, id, bot, 5);
    OneRunWork(w, id, c, bot);
    assert QuietNext(b[5], b[6], bot);
  }

  lemma OneRunSteps(w: World, id: RunId, c: Sha, bot: Email)
    requires RunsOk(w, bot) && w.remote.Some? && w.store[w.remote.value].committer == bot
    requires id !in w.runs && c !in w.store && w.base < c
    ensures var b := OneRun(w, id, c, bot);
      && (forall i :: 0 <= i < 6 ==> WellFormed(b[i]) && RunStep(b[i], b[i + 1], id, bot))
      && Push(b[5], b[6], id) && Forced(b[5], id)
  {
    OneRunDecides(w, id, c, bot);
    OneRunPushes(w, id, c, bot);
  }

  lemma {:induction false} OneRunKeeps(b: seq<World>, id: RunId, bot: Email, n: nat)
    requires n < |b| && RunsOk(b[0], bot)
    requires forall i :: 0 <= i < n ==> WellFormed(b[i]) && RunStep(b[i], b[i + 1], id, bot)
    ensures RunsOk(b[n], bot)
    ensures forall i :: 0 <= i < n ==> WellFormed(b[i]) && QuietNext(b[i], b[i + 1], bot)
  {
    if n > 0 {
      OneRunKeeps(b, id, bot, n - 1);
      assert RunStep(b[n - 1], b[n - 1 + 1], id, bot);
      OwnStepKeepsRuns(b[n - 1], b[n], id, bot);
    }
  }

  lemma OneRunWork(w: World, id: RunId, c: Sha, bot: Email)
    requires RunsOk(w, bot) && w.remote.Some? && c !in w.store && w.base < c
    ensures var b := OneRun(w, id, c, bot); WellFormed(b[5]) && HumanWork(b[5], bot) == HumanWork(w, bot)
  {
    var b := OneRun(w, id, c, bot);
    OneRunCommits(w, id, c, bot);
    ExtendByCommit(w, c, w.base, bot);
    HistoryStable(w.store, b[5].store, w.base);
    HistoryStable(w.store, b[5].store, w.remote.value);
    HistoryInStore(w.store, w.remote.value);
  }

  lemma {:induction false} Fresh(s: set<nat>, above: nat) returns (n: nat)
    ensures n !in s && n > above
  {
    if s == {} {
      n := above + 1;
    } else {
      var x :| x in s;
      n := Fresh(s - {x}, if x > above then x else above);
    }
  }

  /** With nobody pushing by hand, runs and merges are safe from here on exactly when the branch's tip
      tells the truth: a bot-committed tip with a human commit under it is lost to the next run. */
  lemma SafeIffTipTellsOwner(w: World, bot: Email)
    requires RunsOk(w, bot)
    ensures TipTellsOwner(w, bot) <==> forall b :: Unattended(b, w, bot) ==> !LosesSomewhere(b, bot)
  {
    if TipTellsOwner(w, bot) {
      forall b | Unattended(b, w, bot)
        ensures !LosesSomewhere(b, bot)
      {
        forall i | 0 <= i < |b| - 1 && WellFormed(b[i]) && WellFormed(b[i + 1])
          ensures Lost(b[i], b[i + 1], bot) == {}
        {
          UnattendedKeeps(b, w, bot, i + 1);
        }
      }
    } else {
      var id := Fresh(w.runs.Keys, 0);
      var c := Fresh(w.store.Keys, w.base);
      var b := OneRun(w, id, c, bot);
      OneRunIsUnattended(w, id, c, bot);
      PushLoses(b[5], b[6], id, bot);
      assert Lost(b[5], b[5 + 1], bot) != {};
    }
  }

  /** Such a branch: commit 2 is a human's, and the bot committed 3 on top of it. */
  function HiddenWork(human: Email, bot: Email): World {
    World(map[1 := Commit({}, human), 2 := Commit({1}, human), 3 := Commit({2}, bot)], 1, Some(3), map[])
  }

  lemma HiddenHistory(human: Email, bot: Email)
    ensures var w := HiddenWork(human, bot);
      WellFormed(w) && History(w.store, 1) == {1} && History(w.store, 3) == {3, 2, 1}
  {
    var w := HiddenWork(human, bot);
    assert History(w.store, 1) == {1};
    assert History(w.store, 2) == {2, 1};
    assert History(w.store, 3) == {3} + History(w.store, 2);
  }

  lemma HiddenWorkIsLost(human: Email, bot: Email)
    requires human != bot
    ensures RunsOk(HiddenWork(human, bot), bot) && HumanWork(HiddenWork(human, bot), bot) == {2}
    ensures exists b :: Unattended(b, HiddenWork(human, bot), bot) && LosesSomewhere(b, bot)
  {
    HiddenHistory(human, bot);
    SafeIffTipTellsOwner(HiddenWork(human, bot), bot);
  }

  // ----- a run that nothing disturbs

  /** Only this run moves, from before its start. */
  ghost predicate Alone(b: seq<World>, w: World, id: RunId, bot: Email) {
    && b != [] && b[0] == w && id !in w.runs
    && forall i :: 0 <= i < |b| - 1 ==> WellFormed(b[i]) && RunStep(b[i], b[i + 1], id, bot)
  }

  predicate Ended(w: World, id: RunId) {
    id in w.runs && (w.runs[id].Pushed? || w.runs[id].Skipped? || w.runs[id].Failed?)
  }

  ghost predicate Whole(b: seq<World>, w: World, id: RunId, bot: Email) {
    Alone(b, w, id, bot) && Ended(b[|b| - 1], id)
  }

  /** There is no branch, or the bot committed its tip. */
  predicate BranchIsFree(w: World, bot: Email) {
    w.remote.Some? ==> w.remote.value in w.store && w.store[w.remote.value].committer == bot
  }

  /** The run has put its own new commit, by the bot on the base commit, on the branch, and done nothing else. */
  ghost predicate Published(w: World, w': World, id: RunId, c: Sha, bot: Email) {
    c !in w.store && w' == World(w.store[c := Commit({w.base}, bot)], w.base, Some(c), w.runs[id := Pushed])
  }

  function WithCommit(w: World, c: Sha, bot: Email): Store {
    w.store[c := Commit({w.base}, bot)]
  }

  /** How far the run has come. */
  ghost predicate Along(w: World, x: World, id: RunId, bot: Email) {
    if id !in x.runs then x == w
    else
      match x.runs[id]
      case Started(_) => x == Standing(w, id, Started(w.base))
      case Listed(_) => x == Standing(w, id, Listed(w.base)) && w.remote.Some?
      case Inspected(_, _) => x == Standing(w, id, Inspected(w.base, w.remote))
      case Approved(_, _) => x == Standing(w, id, Approved(w.base, w.remote)) && BranchIsFree(w, bot)
      case Committed(_, c) =>
        && c !in w.store && w.base < c && BranchIsFree(w, bot)
        && x == Standing(w, id, Committed(w.remote, c)).(store := WithCommit(w, c, bot))
      case Pushed => BranchIsFree(w, bot) && exists c :: Published(w, x, id, c, bot)
      case Skipped => x == Standing(w, id, Skipped) && !BranchIsFree(w, bot)
      case Failed => false
  }

  function Rank(x: World, id: RunId): nat {
    if id !in x.runs then 0
    else
      match x.runs[id]
      case Started(_) => 1
      case Listed(_) => 2
      case Inspected(_, _) => 3
      case Approved(_, _) => 4
      case Committed(_, _) => 5
      case _ => 6
  }

  lemma AlongStep(w: World, x: World, y: World, id: RunId, bot: Email)
    requires RunsOk(w, bot) && id !in w.runs && Along(w, x, id, bot) && WellFormed(x) && RunStep(x, y, id, bot)
    ensures Along(w, y, id, bot) && Rank(x, id) < Rank(y, id) && !Ended(x, id)
  {
    if MakeCommit(x, y, id, bot) {
      AlongCommit(w, x, y, id, bot);
    } else if Push(x, y, id) {
      AlongPush(w, x, y, id, bot);
    } else {
      AlongLook(w, x, y, id, bot);
    }
  }

  lemma AlongLook(w: World, x: World, y: World, id: RunId, bot: Email)
    requires RunsOk(w, bot) && id !in w.runs && Along(w, x, id, bot)
    requires Start(x, y, id) || List(x, y, id) || Fetch(x, y, id) || Guard(x, y, id, bot)
    ensures Along(w, y, id, bot) && Rank(x, id) < Rank(y, id) && !Ended(x, id)
  {
    if id in x.runs {
      Replaced(w.runs, id, x.runs[id], y.runs[id]);
    }
  }

  lemma Replaced(runs: map<RunId, Run>, id: RunId, was: Run, now: Run)
    ensures runs[id := was][id := now] == runs[id := now]
  {
  }

  lemma AlongCommit(w: World, x: World, y: World, id: RunId, bot: Email)
    requires id !in w.runs && Along(w, x, id, bot) && MakeCommit(x, y, id, bot)
    ensures Along(w, y, id, bot) && Rank(x, id) < Rank(y, id) && !Ended(x, id)
  {
    Replaced(w.runs, id, x.runs[id], y.runs[id]);
  }

  lemma AlongPush(w: World, x: World, y: World, id: RunId, bot: Email)
    requires id !in w.runs && Along(w, x, id, bot) && WellFormed(x) && Push(x, y, id)
    ensures Along(w, y, id, bot) && Rank(x, id) < Rank(y, id) && !Ended(x, id)
  {
    Replaced(w.runs, id, x.runs[id], Pushed);
    assert Published(w, y, id, x.runs[id].commit, bot);
  }

  lemma {:induction false} AloneIsAlong(b: seq<World>, w: World, id: RunId, bot: Email, i: nat)
    requires RunsOk(w, bot) && Alone(b, w, id, bot) && i < |b|
    ensures Along(w, b[i], id, bot) && i <= Rank(b[i], id) <= 6
    ensures i < |b| - 1 ==> !Ended(b[i], id)
  {
    if i > 0 {
      AloneIsAlong(b, w, id, bot, i - 1);
      assert RunStep(b[i - 1], b[i - 1 + 1], id, bot);
      AlongStep(w, b[i - 1], b[i], id, bot);
    }
    if i < |b| - 1 {
      assert RunStep(b[i], b[i + 1], id, bot);
      AlongStep(w, b[i], b[i + 1], id, bot);
    }
  }

  /** A run that nothing disturbs takes six steps at most; when it ends, its own commit is the branch's tip if there was no
      branch or the bot had committed its tip, and otherwise nothing has changed. */
  lemma AloneEnds(b: seq<World>, w: World, id: RunId, bot: Email)
    requires RunsOk(w, bot) && Alone(b, w, id, bot)
    ensures |b| <= 7
    ensures var last := b[|b| - 1]; Ended(last, id) ==>
      if BranchIsFree(w, bot) then exists c :: Published(w, last, id, c, bot) else last == w.(runs := w.runs[id := Skipped])
  {
    AloneIsAlong(b, w, id, bot, |b| - 1);
  }

  /** Wherever such a run stands, it can go on. */
  lemma CanStep(w: World, x: World, id: RunId, bot: Email, c: Sha) returns (y: World)
    requires RunsOk(w, bot) && id !in w.runs && Along(w, x, id, bot) && !Ended(x, id) && c !in w.store && w.base < c
    requires id in x.runs && x.runs[id].Committed? ==> x.runs[id].commit == c
    ensures WellFormed(x) && RunStep(x, y, id, bot)
    ensures id in y.runs && y.runs[id].Committed? ==> y.runs[id].commit == c
    ensures y.runs[id].Pushed? ==> Published(w, y, id, c, bot)
  {
    StoreGrows(w.store, c, w.base, bot);
    if id !in x.runs {
      y := Standing(x, id, Started(x.base));
    } else {
      match x.runs[id]
      case Started(head) => y := Standing(x, id, if x.remote == None then Inspected(head, None) else Listed(head));
      case Listed(head) => y := Standing(x, id, Inspected(head, x.remote));
      case Inspected(head, tip) =>
        y := Standing(x, id, if IsBotAuthored(x.store, tip, bot) then Approved(head, tip) else Skipped);
      case Approved(head, tip) =>
        y := Standing(x, id, Committed(tip, c)).(store := x.store[c := Commit({head}, bot)]);
      case Committed(_, commit) =>
        y := Standing(x, id, Pushed).(remote := Some(commit));
        Replaced(w.runs, id, x.runs[id], Pushed);
    }
  }

  /** The run goes on to its end, with `c` as its commit. */
  lemma RunOn(b: seq<World>, w: World, id: RunId, c: Sha, bot: Email) returns (all: seq<World>)
    requires RunsOk(w, bot) && Alone(b, w, id, bot) && c !in w.store && w.base < c && Rank(b[|b| - 1], id) <= 6
    requires Along(w, b[|b| - 1], id, bot)
    requires var x := b[|b| - 1]; id in x.runs && x.runs[id].Committed? ==> x.runs[id].commit == c
    requires var x := b[|b| - 1]; id in x.runs && x.runs[id].Pushed? ==> Published(w, x, id, c, bot)
    ensures Alone(all, w, id, bot) && Ended(all[|all| - 1], id)
    ensures all[|all| - 1].runs[id].Pushed? ==> Published(w, all[|all| - 1], id, c, bot)
    decreases 6 - Rank(b[|b| - 1], id)
  {
    var x := b[|b| - 1];
    if Ended(x, id) {
      all := b;
    } else {
      var y := CanStep(w, x, id, bot, c);
      AlongStep(w, x, y, id, bot);
      all := RunOn(b + [y], w, id, c, bot);
    }
  }

  /** With no branch, or one the bot committed last, an undisturbed run does publish: its commit becomes the tip. */
  lemma RunPublishes(w: World, id: RunId, c: Sha, bot: Email) returns (b: seq<World>)
    requires RunsOk(w, bot) && id !in w.runs && c !in w.store && w.base < c && BranchIsFree(w, bot)
    ensures Alone(b, w, id, bot) && Unattended(b, w, bot) && Published(w, b[|b| - 1], id, c, bot)
  {
    b := RunOn([w], w, id, c, bot);
    AloneEnds(b, w, id, bot);
    forall i | 0 <= i < |b| - 1
      ensures WellFormed(b[i]) && QuietNext(b[i], b[i + 1], bot)
    {
      assert RunStep(b[i], b[i + 1], id, bot);
    }
  }

  /** Whatever the branch, an undisturbed run comes to its end, and has published exactly when the branch was free. */
  lemma RunPublishesIff(w: World, id: RunId, bot: Email)
    requires RunsOk(w, bot) && id !in w.runs
    ensures exists b: seq<World> :: Whole(b, w, id, bot)
    ensures forall b: seq<World> :: Whole(b, w, id, bot) ==> EndsRight(b, w, id, bot)
  {
    var c := Fresh(w.store.Keys, w.base);
    var run := RunOn([w], w, id, c, bot);
    assert Whole(run, w, id, bot);
    forall b: seq<World> | Whole(b, w, id, bot)
      ensures EndsRight(b, w, id, bot)
    {
      AloneEnds(b, w, id, bot);
    }
  }

  /** Published if and only if the branch was free, and otherwise no commit made and nothing moved. */
  ghost predicate EndsRight(b: seq<World>, w: World, id: RunId, bot: Email)
    requires b != []
  {
    var last := b[|b| - 1];
    && ((exists c :: Published(w, last, id, c, bot)) <==> BranchIsFree(w, bot))
    && (!BranchIsFree(w, bot) ==> last.remote == w.remote && last.store == w.store)
  }

  // ----- what a push needs of the branch

  lemma TipIsBranch(w: World, s: Sha)
    requires WellFormed(w) && s in w.store
    ensures Branch(w) <= History(w.store, s) <==> w.remote.Some? ==> w.remote.value in History(w.store, s)
  {
    if w.remote.Some? {
      HistoryInStore(w.store, w.remote.value);
      if w.remote.value in History(w.store, s) {
        HistoryTransitive(w.store, w.remote.value, s);
      }
    }
  }

  /** A run that saw a branch publishes exactly if the branch is still where it was; one that saw none, exactly if its
      commit has everything in its history that the branch has by then. Otherwise it fails and changes nothing. */
  lemma PushIff(w: World, w': World, id: RunId)
    requires WellFormed(w) && Push(w, w', id)
    ensures var Committed(tip, commit) := w.runs[id];
      && (w'.runs[id] == Pushed
          <==> if tip.Some? then w.remote == tip else Branch(w) <= History(w.store, commit))
      && (w'.runs[id] == Pushed ==> w'.remote == Some(commit))
      && (w'.runs[id] != Pushed ==> w'.runs[id] == Failed && w'.remote == w.remote) && w'.store == w.store
  {
    TipIsBranch(w, w.runs[id].commit);
  }

  /** The run has seen a branch and has its tip, or is over. */
  predicate SawBranch(r: Run) {
    match r
    case Started(_) => false
    case Listed(_) => true
    case Inspected(_, tip) => tip.Some?
    case Approved(_, tip) => tip.Some?
    case Committed(tip, _) => tip.Some?
    case _ => true
  }

  ghost predicate Behaviour(b: seq<World>, bot: Email) {
    forall i :: 0 <= i < |b| - 1 ==> WellFormed(b[i]) && Next(b[i], b[i + 1], bot)
  }

  predicate Sees(w: World, id: RunId) {
    id in w.runs && SawBranch(w.runs[id])
  }

  lemma StepKeepsSight(w: World, w': World, id: RunId, bot: Email)
    requires WellFormed(w) && Next(w, w', bot) && Sees(w, id)
    ensures Sees(w', id)
  {
    if QuietNext(w, w', bot) && !Merge(w, w') {
      var other :| RunStep(w, w', other, bot);
    }
  }

  lemma StepAt(b: seq<World>, bot: Email, k: nat, n: nat)
    requires Behaviour(b, bot) && n == k + 1 < |b|
    ensures WellFormed(b[k]) && Next(b[k], b[n], bot)
  {
  }

  /** Whatever happens meanwhile, a run that listed a branch never pushes without a lease on the tip it saw; where the
      branch is gone before it is fetched, it fails. */
  lemma {:induction false} ListedRunsLease(b: seq<World>, bot: Email, id: RunId, i: nat, j: nat)
    requires Behaviour(b, bot) && i <= j < |b| && id in b[i].runs && b[i].runs[id].Listed?
    ensures Sees(b[j], id)
    decreases j - i
  {
    if i < j {
      var k := j - 1;
      ListedRunsLease(b, bot, id, i, k);
      StepAt(b, bot, k, j);
      StepKeepsSight(b[k], b[j], id, bot);
    }
  }
}
