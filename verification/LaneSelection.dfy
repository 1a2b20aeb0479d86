/** Which end-to-end jobs a change fires (`classify_change`, `_affected_or_fallback` and the decision in `main` of
    `scripts/e2e_changes.py`), on top of the workflow scan. */
module LaneSelection {
  import opened WorkflowScan

  /** Which paths a lane exercises, and which of them are scenario files. */
  datatype Lane = Lane(relevant: string -> bool, scenario: string -> bool)

  datatype Verdict = Skip | Whole | Narrowed(jobs: set<string>)

  datatype Kind = Nothing | ScenarioOnly | Shared

  /** `classify_change`. */
  function Classify(lane: Lane, changed: seq<string>): Kind {
    if forall p :: p in changed ==> !lane.relevant(p) then Nothing
    else if forall p :: p in changed && lane.relevant(p) ==> lane.scenario(p) then ScenarioOnly
    else Shared
  }

  function Declared(m: Found): set<string> {
    set j, p | j in m && p in m[j] :: p
  }

  function ChangedScenarios(lane: Lane, changed: seq<string>): set<string> {
    set p | p in changed && lane.scenario(p)
  }

  /** `affected_jobs`. */
  function Affected(m: Found, scenarios: set<string>): set<string> {
    set j | j in m && m[j] * scenarios != {}
  }

  /** `job_map.setdefault(job, set()).update(scenarios)` for each job another source declares. */
  function Merged(m: Found, more: Found): Found {
    map j | j in m.Keys + more.Keys :: (if j in m then m[j] else {}) + (if j in more then more[j] else {})
  }

  // ----- what a selection is to be

  /** A job of the workflow that declares a scenario, or one the Makefile names for it. */
  ghost predicate Exercises(w: Workflow, more: Found, job: string, path: string) {
    (!Pooled(w, job) && Declares(w, job, path)) || (job in more && path in more[job])
  }

  ghost predicate Concerns(lane: Lane, changed: seq<string>) {
    exists p :: p in changed && lane.relevant(p)
  }

  ghost predicate OnlyScenarios(lane: Lane, changed: seq<string>) {
    forall p :: p in changed && lane.relevant(p) ==> lane.scenario(p)
  }

  /** The lane's workflow file can be read, and is `w`. */
  ghost predicate Reads(workflow: Option<seq<Line>>, plain: string -> bool, w: Workflow) {
    workflow.Some? && WorkflowOk(w, plain) && WorkflowLines(w) == workflow.value
  }

  /** Every changed scenario is exercised by some job. */
  ghost predicate Attributed(w: Workflow, more: Found, lane: Lane, changed: seq<string>) {
    forall p :: p in changed && lane.scenario(p) ==> exists j :: Exercises(w, more, j, p)
  }

  /** The jobs that exercise a changed scenario. */
  ghost predicate IsSelection(jobs: set<string>, w: Workflow, more: Found, lane: Lane, changed: seq<string>) {
    forall j :: j in jobs <==> exists p :: p in changed && lane.scenario(p) && Exercises(w, more, j, p)
  }

  /** What is known of a change: it reaches scenario files alone, and each is attributed. */
  ghost predicate Narrows(lane: Lane, changed: seq<string>, workflow: Option<seq<Line>>, more: Option<Found>,
                          plain: string -> bool, w: Workflow) {
    OnlyScenarios(lane, changed) && more.Some? && Reads(workflow, plain, w) && Attributed(w, more.value, lane, changed)
  }

  /** `_affected_or_fallback`: nothing where the whole lane is to fire. `workflow` is the lane's workflow file, if it can
      be read; `more` what the showcase Makefile adds, which fails as a whole. */
  method AffectedOrFallback(lane: Lane, changed: seq<string>, workflow: Option<seq<Line>>, more: Option<Found>,
                            plain: string -> bool)
    returns (r: Option<set<string>>)
    ensures r.Some? <==> more.Some? && exists w :: Reads(workflow, plain, w) && Attributed(w, more.value, lane, changed)
    ensures r.Some? ==> forall w :: Reads(workflow, plain, w) ==> IsSelection(r.value, w, more.value, lane, changed)
  {
    if workflow.None? {
      return None;
    }
    var map0 := JobScenarioMap(workflow.value, plain);
    MapIff(workflow.value, plain, map0);
    if map0.None? || more.None? {
      return None;
    }
    var jobs := Merged(map0.value, more.value);
    var scenarios := ChangedScenarios(lane, changed);
    SelectionIff(workflow.value, plain, map0.value, more.value, lane, changed);
    return if scenarios - Declared(jobs) != {} then None else Some(Affected(jobs, scenarios));
  }

  lemma MapIff(workflow: seq<Line>, plain: string -> bool, m: Option<Found>)
    requires m == Outcome(Run(START, workflow, plain))
    ensures m.Some? <==> exists w :: Reads(Some(workflow), plain, w)
    ensures forall w :: Reads(Some(workflow), plain, w) ==> IsMapOf(m.value, w)
  {
    ReadIffSupported(workflow, plain);
    if w :| WorkflowOk(w, plain) && WorkflowLines(w) == workflow {
      assert Reads(Some(workflow), plain, w);
    }
  }

  lemma SelectionIff(workflow: seq<Line>, plain: string -> bool, m: Found, more: Found, lane: Lane, changed: seq<string>)
    requires forall w :: Reads(Some(workflow), plain, w) ==> IsMapOf(m, w)
    ensures forall w :: Reads(Some(workflow), plain, w) ==>
      && (ChangedScenarios(lane, changed) - Declared(Merged(m, more)) == {} <==> Attributed(w, more, lane, changed))
      && IsSelection(Affected(Merged(m, more), ChangedScenarios(lane, changed)), w, more, lane, changed)
  {
    forall w | Reads(Some(workflow), plain, w)
      ensures ChangedScenarios(lane, changed) - Declared(Merged(m, more)) == {} <==> Attributed(w, more, lane, changed)
      ensures IsSelection(Affected(Merged(m, more), ChangedScenarios(lane, changed)), w, more, lane, changed)
    {
      AttributedIff(w, m, more, lane, changed);
      SelectionIs(w, m, more, lane, changed);
      DifferenceIsEmpty(ChangedScenarios(lane, changed), Declared(Merged(m, more)));
    }
  }

  lemma DifferenceIsEmpty(a: set<string>, b: set<string>)
    ensures a - b == {} <==> a <= b
  {
    if a - b == {} {
      forall x | x in a
        ensures x in b
      {
        assert x !in a - b;
      }
    }
  }

  /** The decision of `main`, for a pull request: skipped exactly where no path concerns the lane, narrowed exactly where
      every relevant path is a scenario some job exercises, to exactly the jobs that do, and else whole. */
  method Decide(lane: Lane, changed: seq<string>, workflow: Option<seq<Line>>, more: Option<Found>,
                plain: string -> bool)
    returns (v: Verdict)
    ensures v == Skip <==> !Concerns(lane, changed)
    ensures v.Narrowed? <==> Concerns(lane, changed) && exists w :: Narrows(lane, changed, workflow, more, plain, w)
    ensures v.Narrowed? ==> forall w :: Narrows(lane, changed, workflow, more, plain, w) ==>
      IsSelection(v.jobs, w, more.value, lane, changed)
  {
    var kind := Classify(lane, changed);
    if kind == Nothing {
      return Skip;
    }
    if kind == Shared {
      return Whole;
    }
    var affected := AffectedOrFallback(lane, changed, workflow, more, plain);
    if affected.Some? {
      ghost var w :| Reads(workflow, plain, w) && Attributed(w, more.value, lane, changed);
      assert Narrows(lane, changed, workflow, more, plain, w);
    }
    return if affected.None? then Whole else Narrowed(affected.value);
  }

  lemma AttributedIff(w: Workflow, m: Found, more: Found, lane: Lane, changed: seq<string>)
    requires IsMapOf(m, w)
    ensures ChangedScenarios(lane, changed) <= Declared(Merged(m, more)) <==> Attributed(w, more, lane, changed)
  {
    MergedIs(m, w, more);
    var jobs, scenarios := Merged(m, more), ChangedScenarios(lane, changed);
    forall p | p in scenarios
      ensures p in Declared(jobs) <==> exists j :: Exercises(w, more, j, p)
    {
      if j :| j in jobs && p in jobs[j] {
        assert Exercises(w, more, j, p);
      }
      if j :| Exercises(w, more, j, p) {
        assert j in jobs && p in jobs[j];
      }
    }
    assert forall p :: p in changed && lane.scenario(p) <==> p in scenarios;
  }

  lemma SelectionIs(w: Workflow, m: Found, more: Found, lane: Lane, changed: seq<string>)
    requires IsMapOf(m, w)
    ensures IsSelection(Affected(Merged(m, more), ChangedScenarios(lane, changed)), w, more, lane, changed)
  {
    forall j
      ensures j in Affected(Merged(m, more), ChangedScenarios(lane, changed))
         <==> exists p :: p in changed && lane.scenario(p) && Exercises(w, more, j, p)
    {
      AffectedIff(w, m, more, lane, changed, j);
    }
  }

  /** The selection never under-fires: with the lane narrowed, every relevant changed path is a scenario some selected
      job exercises. */
  lemma NeverUnderFires(lane: Lane, changed: seq<string>, workflow: Option<seq<Line>>, more: Option<Found>,
                        plain: string -> bool, w: Workflow, jobs: set<string>)
    requires Narrows(lane, changed, workflow, more, plain, w) && IsSelection(jobs, w, more.value, lane, changed)
    ensures forall p :: p in changed && lane.relevant(p) ==> exists j :: j in jobs && Exercises(w, more.value, j, p)
  {
    forall p | p in changed && lane.relevant(p)
      ensures exists j :: j in jobs && Exercises(w, more.value, j, p)
    {
      var j :| Exercises(w, more.value, j, p);
      assert j in jobs;
    }
  }

  /** What the merged map says of a job. */
  lemma MergedIs(m: Found, w: Workflow, more: Found)
    requires IsMapOf(m, w)
    ensures forall j, p :: j in Merged(m, more) ==> (p in Merged(m, more)[j] <==> Exercises(w, more, j, p))
    ensures forall j, p :: Exercises(w, more, j, p) ==> j in Merged(m, more)
  {
    forall j, p
      ensures Exercises(w, more, j, p) <==> (j in m && p in m[j]) || (j in more && p in more[j])
    {
      if !Pooled(w, j) && Declares(w, j, p) {
        assert j in m;
      }
    }
  }

  lemma AffectedIff(w: Workflow, m: Found, more: Found, lane: Lane, changed: seq<string>, j: string)
    requires IsMapOf(m, w)
    ensures j in Affected(Merged(m, more), ChangedScenarios(lane, changed))
       <==> exists p :: p in changed && lane.scenario(p) && Exercises(w, more, j, p)
  {
    MergedIs(m, w, more);
    var jobs, scenarios := Merged(m, more), ChangedScenarios(lane, changed);
    if j in Affected(jobs, scenarios) {
      var p :| p in jobs[j] * scenarios;
      assert p in changed && lane.scenario(p) && Exercises(w, more, j, p);
    }
    if p :| p in changed && lane.scenario(p) && Exercises(w, more, j, p) {
      assert p in jobs[j] * scenarios;
    }
  }
}
