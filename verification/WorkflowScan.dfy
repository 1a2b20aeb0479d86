/** Which job of an end-to-end workflow declares which scenarios, read line by line (`job_scenario_map` of
    `scripts/e2e_changes.py`). What the patterns see in one line is given; the state machine over the lines is not. */
module WorkflowScan {

  datatype Option<+T> = None | Some(value: T)

  /** A line: whether it is blank or a comment, its indentation and stripped text, and which patterns match it. */
  datatype Line = Line(
    blank: bool, indent: nat, text: string,
    header: bool,               // `jobs:`
    topKey: bool,               // a key in column 0
    job: Option<string>,        // a job id
    guard: bool,                // reads the `pool` output
    scenarios: Option<string>)  // the value of a `scenarios:` input

  type Found = map<string, set<string>>

  function Add(found: Found, job: string, path: string): Found {
    found[job := (if job in found then found[job] else {}) + {path}]
  }

  // ----- the scan

  datatype Block = Block(job: string, indent: nat)

  datatype State = State(inJobs: bool, job: Option<string>, block: Option<Block>, found: Found, pool: set<string>)

  const START := State(false, None, None, map[], {})

  datatype Step = Go(state: State) | Stop(state: State) | Raise

  predicate IsFolded(value: string) {
    value == ">-" || value == ">"
  }

  function OneLine(s: State, l: Line, plain: string -> bool): Step {
    if s.block.Some? && l.blank then Go(s)
    else if s.block.Some? && l.indent > s.block.value.indent then
      if plain(l.text) then Go(s.(found := Add(s.found, s.block.value.job, l.text))) else Raise
    else FreeLine(s.(block := None), l, plain)
  }

  /** A line outside a folded block. */
  function FreeLine(s: State, l: Line, plain: string -> bool): Step {
    if l.header then Go(s.(inJobs := true))
    else if !s.inJobs then Go(s)
    else if l.topKey then Stop(s)
    else if l.job.Some? then Go(s.(job := l.job))
    else if s.job.None? then Go(s)
    else if l.guard then Go(s.(pool := s.pool + {s.job.value}))
    else if l.scenarios.None? then Go(s)
    else if IsFolded(l.scenarios.value) then Go(s.(block := Some(Block(s.job.value, l.indent))))
    else if plain(l.scenarios.value) then Go(s.(found := Add(s.found, s.job.value, l.scenarios.value)))
    else Raise
  }

  function Run(s: State, lines: seq<Line>, plain: string -> bool): Option<State>
    decreases |lines|
  {
    if lines == [] then Some(s)
    else
      match OneLine(s, lines[0], plain)
      case Go(t) => Run(t, lines[1..], plain)
      case Stop(t) => Some(t)
      case Raise => None
  }

  function Finished(s: State): Option<Found> {
    if s.inJobs then Some(map j | j in s.found && j !in s.pool :: s.found[j]) else None
  }

  /** What the scan comes to; a block still open at the end changes nothing. */
  function Outcome(r: Option<State>): Option<Found> {
    match r
    case None => None
    case Some(s) => Finished(s)
  }

  /** `job_scenario_map`; `None` stands for the raised `ValueError`. */
  method JobScenarioMap(lines: seq<Line>, plain: string -> bool) returns (r: Option<Found>)
    ensures r == Outcome(Run(START, lines, plain))
  {
    var s := START;
    for i := 0 to |lines|
      invariant Run(s, lines[i..], plain) == Run(START, lines, plain)
    {
      assert lines[i..][1..] == lines[i + 1..];
      match OneLine(s, lines[i], plain)
      case Raise => return None;
      case Stop(t) => return Finished(t);
      case Go(t) => s := t;
    }
    return Finished(s);
  }

  // ----- workflows the scan understands

  /** What a job's block consists of. */
  datatype Entry = Noise(line: Line) | Guard(line: Line) | Single(line: Line) | Folded(head: Line, body: seq<Line>)

  datatype Job = Job(head: Line, entries: seq<Entry>)

  /** Lines above `jobs:`, lines above the first job, the jobs, and what follows the next top-level key. */
  datatype Workflow = Workflow(before: seq<Line>, header: Line, lead: seq<Line>, jobs: seq<Job>, after: seq<Line>)

  function EntryLines(e: Entry): (ls: seq<Line>)
    ensures |ls| > 0
  {
    match e
    case Folded(head, body) => [head] + body
    case _ => [e.line]
  }

  function EntriesLines(es: seq<Entry>): seq<Line> {
    if es == [] then [] else EntryLines(es[0]) + EntriesLines(es[1..])
  }

  function JobsLines(jobs: seq<Job>): seq<Line> {
    if jobs == [] then [] else [jobs[0].head] + (EntriesLines(jobs[0].entries) + JobsLines(jobs[1..]))
  }

  function WorkflowLines(w: Workflow): seq<Line> {
    w.before + ([w.header] + (w.lead + (JobsLines(w.jobs) + w.after)))
  }

  /** A line inside the jobs block that is no job's head. */
  predicate Inside(l: Line) {
    l.header || (!l.topKey && l.job.None?)
  }

  predicate EntryOk(e: Entry, plain: string -> bool) {
    match e
    case Noise(l) => Inside(l) && (l.header || (!l.guard && l.scenarios.None?))
    case Guard(l) => Inside(l) && !l.header && l.guard
    case Single(l) =>
      && Inside(l) && !l.header && !l.guard && l.scenarios.Some? && l.scenarios.value != ">-" && l.scenarios.value != ">"
      && plain(l.scenarios.value)
    case Folded(l, body) =>
      && Inside(l) && !l.header && !l.guard && l.scenarios.Some? && (l.scenarios.value == ">-" || l.scenarios.value == ">")
      && forall b :: b in body ==> b.blank || (b.indent > l.indent && plain(b.text))
  }

  /** A folded block goes on while lines are blank or deeper. */
  predicate EndsBlock(e: Entry, rest: seq<Line>) {
    e.Folded? && rest != [] ==> !rest[0].blank && rest[0].indent <= e.head.indent
  }

  predicate EntriesOk(es: seq<Entry>, rest: seq<Line>, plain: string -> bool) {
    es != [] ==>
      EntryOk(es[0], plain) && EndsBlock(es[0], EntriesLines(es[1..]) + rest) && EntriesOk(es[1..], rest, plain)
  }

  predicate JobsOk(jobs: seq<Job>, after: seq<Line>, plain: string -> bool) {
    jobs != [] ==>
      && !jobs[0].head.header && !jobs[0].head.topKey && jobs[0].head.job.Some?
      && EntriesOk(jobs[0].entries, JobsLines(jobs[1..]) + after, plain) && JobsOk(jobs[1..], after, plain)
  }

  ghost predicate WorkflowOk(w: Workflow, plain: string -> bool) {
    && (forall l :: l in w.before ==> !l.header) && w.header.header
    && (forall l :: l in w.lead ==> Inside(l))
    && JobsOk(w.jobs, w.after, plain)
    && (w.after != [] ==> w.after[0].topKey && !w.after[0].header)
  }

  // ----- what a workflow declares

  function EntryPaths(e: Entry): set<string> {
    match e
    case Single(l) => if l.scenarios.Some? then {l.scenarios.value} else {}
    case Folded(_, body) => set b | b in body && !b.blank :: b.text
    case _ => {}
  }

  ghost predicate Declares(w: Workflow, job: string, path: string) {
    exists j, e :: j in w.jobs && j.head.job == Some(job) && e in j.entries && path in EntryPaths(e)
  }

  /** Some block of the job reads the `pool` output. */
  ghost predicate Pooled(w: Workflow, job: string) {
    exists j, e :: j in w.jobs && j.head.job == Some(job) && e in j.entries && e.Guard?
  }

  /** The map: each job that is not pooled and declares a scenario, with the scenarios it declares. */
  ghost predicate IsMapOf(m: Found, w: Workflow) {
    && (forall j :: j in m <==> !Pooled(w, j) && exists p :: Declares(w, j, p))
    && (forall j, p :: j in m ==> (p in m[j] <==> Declares(w, j, p)))
  }

  // ----- the state after a part of a workflow

  function AddBody(found: Found, job: string, body: seq<Line>): Found
    decreases |body|
  {
    if body == [] then found
    else AddBody(if body[0].blank then found else Add(found, job, body[0].text), job, body[1..])
  }

  function AddEntry(found: Found, job: string, e: Entry): Found {
    match e
    case Single(l) => if l.scenarios.Some? then Add(found, job, l.scenarios.value) else found
    case Folded(_, body) => AddBody(found, job, body)
    case _ => found
  }

  /** The scan's two results, over a job's entries. */
  function AfterEntries(s: State, job: string, es: seq<Entry>): (t: State)
    ensures t.inJobs == s.inJobs && t.block == s.block
    decreases |es|
  {
    if es == [] then s
    else
      AfterEntries(s.(found := AddEntry(s.found, job, es[0]), pool := if es[0].Guard? then s.pool + {job} else s.pool),
                   job, es[1..])
  }

  function AfterJobs(s: State, jobs: seq<Job>): (t: State)
    ensures t.inJobs == s.inJobs && t.block == s.block
    decreases |jobs|
  {
    if jobs == [] || jobs[0].head.job.None? then s
    else AfterJobs(AfterEntries(s.(job := jobs[0].head.job), jobs[0].head.job.value, jobs[0].entries), jobs[1..])
  }

  lemma {:induction false} RunBody(s: State, body: seq<Line>, rest: seq<Line>, plain: string -> bool)
    requires s.block.Some?
    requires forall b :: b in body ==> b.blank || (b.indent > s.block.value.indent && plain(b.text))
    ensures Run(s, body + rest, plain)
         == Run(s.(found := AddBody(s.found, s.block.value.job, body)), rest, plain)
    decreases |body|
  {
    if body == [] {
      assert body + rest == rest;
    } else {
      assert (body + rest)[1..] == body[1..] + rest;
      var t := if body[0].blank then s else s.(found := Add(s.found, s.block.value.job, body[0].text));
      RunBody(t, body[1..], rest, plain);
    }
  }

  lemma BlockOver(s: State, rest: seq<Line>, plain: string -> bool)
    requires s.block.Some? && rest != [] ==> !rest[0].blank && rest[0].indent <= s.block.value.indent
    ensures Outcome(Run(s, rest, plain)) == Outcome(Run(s.(block := None), rest, plain))
  {
  }

  lemma EntryRuns(s: State, job: string, e: Entry, rest: seq<Line>, plain: string -> bool)
    requires s.inJobs && s.job == Some(job) && s.block.None? && EntryOk(e, plain) && EndsBlock(e, rest)
    ensures var t := s.(found := AddEntry(s.found, job, e), pool := if e.Guard? then s.pool + {job} else s.pool);
      Outcome(Run(s, EntryLines(e) + rest, plain)) == Outcome(Run(t, rest, plain))
  {
    var lines := EntryLines(e) + rest;
    if e.Folded? {
      var t := s.(block := Some(Block(job, e.head.indent)));
      assert lines[1..] == e.body + rest;
      RunBody(t, e.body, rest, plain);
      BlockOver(t.(found := AddBody(t.found, job, e.body)), rest, plain);
    } else {
      assert lines[1..] == rest;
    }
  }

  lemma Associate<T>(a: seq<T>, b: seq<T>, c: seq<T>)
    ensures (a + b) + c == a + (b + c)
  {
  }

  lemma {:induction false} EntriesRun(s: State, job: string, es: seq<Entry>, rest: seq<Line>, plain: string -> bool)
    requires s.inJobs && s.job == Some(job) && s.block.None? && EntriesOk(es, rest, plain)
    ensures Outcome(Run(s, EntriesLines(es) + rest, plain)) == Outcome(Run(AfterEntries(s, job, es), rest, plain))
    decreases |es|
  {
    if es == [] {
      assert EntriesLines(es) + rest == rest;
    } else {
      var e := es[0];
      var t := s.(found := AddEntry(s.found, job, e), pool := if e.Guard? then s.pool + {job} else s.pool);
      Associate(EntryLines(e), EntriesLines(es[1..]), rest);
      EntryRuns(s, job, e, EntriesLines(es[1..]) + rest, plain);
      EntriesRun(t, job, es[1..], rest, plain);
    }
  }

  lemma HeadRuns(s: State, head: Line, rest: seq<Line>, plain: string -> bool)
    requires s.inJobs && s.block.None? && !head.header && !head.topKey && head.job.Some?
    ensures Run(s, [head] + rest, plain) == Run(s.(job := head.job), rest, plain)
  {
    assert ([head] + rest)[1..] == rest;
  }

  lemma {:induction false} JobsRun(s: State, jobs: seq<Job>, after: seq<Line>, plain: string -> bool)
    requires s.inJobs && s.block.None? && JobsOk(jobs, after, plain)
    requires after != [] ==> after[0].topKey && !after[0].header
    ensures Outcome(Run(s, JobsLines(jobs) + after, plain)) == Finished(AfterJobs(s, jobs))
    decreases |jobs|
  {
    if jobs == [] {
      assert JobsLines(jobs) + after == after;
    } else {
      var j := jobs[0];
      var rest, t := JobsLines(jobs[1..]) + after, s.(job := j.head.job);
      JobLines(j, jobs[1..], after);
      HeadRuns(s, j.head, EntriesLines(j.entries) + rest, plain);
      EntriesRun(t, j.head.job.value, j.entries, rest, plain);
      JobsRun(AfterEntries(t, j.head.job.value, j.entries), jobs[1..], after, plain);
      assert [j] + jobs[1..] == jobs;
    }
  }

  lemma JobLines(j: Job, jobs: seq<Job>, after: seq<Line>)
    ensures JobsLines([j] + jobs) + after == [j.head] + (EntriesLines(j.entries) + (JobsLines(jobs) + after))
  {
    assert ([j] + jobs)[1..] == jobs;
    Associate([j.head], EntriesLines(j.entries) + JobsLines(jobs), after);
    Associate(EntriesLines(j.entries), JobsLines(jobs), after);
  }

  /** Lines that change nothing. */
  lemma {:induction false} QuietRun(s: State, quiet: seq<Line>, rest: seq<Line>, plain: string -> bool)
    requires s.block.None? && s.job.None?
    requires forall l :: l in quiet ==> if s.inJobs then Inside(l) else !l.header
    ensures Run(s, quiet + rest, plain) == Run(s, rest, plain)
    decreases |quiet|
  {
    if quiet == [] {
      assert quiet + rest == rest;
    } else {
      assert (quiet + rest)[1..] == quiet[1..] + rest && (quiet + rest)[0] == quiet[0];
      assert quiet[0] in quiet;
      QuietRun(s, quiet[1..], rest, plain);
    }
  }

  lemma WorkflowRuns(w: Workflow, plain: string -> bool)
    requires WorkflowOk(w, plain)
    ensures Outcome(Run(START, WorkflowLines(w), plain)) == Finished(AfterJobs(START.(inJobs := true), w.jobs))
  {
    var jobs := JobsLines(w.jobs) + w.after;
    var s := START.(inJobs := true);
    QuietRun(START, w.before, [w.header] + (w.lead + jobs), plain);
    assert ([w.header] + (w.lead + jobs))[1..] == w.lead + jobs;
    QuietRun(s, w.lead, jobs, plain);
    JobsRun(s, w.jobs, w.after, plain);
  }

  // ----- the state, in terms of what is declared

  predicate Has(found: Found, job: string, path: string) {
    job in found && path in found[job]
  }

  /** No job is listed without a path. */
  ghost predicate NoneEmpty(found: Found) {
    forall j :: j in found ==> exists p :: p in found[j]
  }

  lemma AddHas(found: Found, job: string, path: string)
    requires NoneEmpty(found)
    ensures NoneEmpty(Add(found, job, path))
    ensures forall j, p :: Has(Add(found, job, path), j, p) <==> Has(found, j, p) || (j == job && p == path)
  {
    var f := Add(found, job, path);
    forall j | j in f
      ensures exists p :: p in f[j]
    {
      if j == job {
        assert path in f[j];
      } else {
        assert f[j] == found[j];
      }
    }
  }

  function BodyPaths(body: seq<Line>): set<string> {
    set b | b in body && !b.blank :: b.text
  }

  lemma {:induction false} BodyHas(found: Found, job: string, body: seq<Line>)
    requires NoneEmpty(found)
    ensures NoneEmpty(AddBody(found, job, body))
    ensures forall j, p :: Has(AddBody(found, job, body), j, p) <==> Has(found, j, p) || (j == job && p in BodyPaths(body))
    decreases |body|
  {
    if body != [] {
      var l := body[0];
      var next := if l.blank then found else Add(found, job, l.text);
      AddHas(found, job, l.text);
      BodyHas(next, job, body[1..]);
      assert body == [l] + body[1..];
      assert BodyPaths(body) == (if l.blank then {} else {l.text}) + BodyPaths(body[1..]);
    }
  }

  lemma EntryHas(found: Found, job: string, e: Entry)
    requires NoneEmpty(found)
    ensures NoneEmpty(AddEntry(found, job, e))
    ensures forall j, p :: Has(AddEntry(found, job, e), j, p) <==> Has(found, j, p) || (j == job && p in EntryPaths(e))
  {
    match e
    case Single(l) => if l.scenarios.Some? { AddHas(found, job, l.scenarios.value); }
    case Folded(_, body) => BodyHas(found, job, body);
    case _ =>
  }

  ghost predicate SomeEntry(es: seq<Entry>, path: string) {
    exists e :: e in es && path in EntryPaths(e)
  }

  ghost predicate SomeGuard(es: seq<Entry>) {
    exists e :: e in es && e.Guard?
  }

  lemma {:induction false} EntriesHave(s: State, job: string, es: seq<Entry>)
    requires NoneEmpty(s.found)
    ensures var t := AfterEntries(s, job, es);
      && NoneEmpty(t.found)
      && (forall j, p :: Has(t.found, j, p) <==> Has(s.found, j, p) || (j == job && SomeEntry(es, p)))
      && (forall j :: j in t.pool <==> j in s.pool || (j == job && SomeGuard(es)))
    decreases |es|
  {
    if es != [] {
      var e := es[0];
      var t := s.(found := AddEntry(s.found, job, e), pool := if e.Guard? then s.pool + {job} else s.pool);
      EntryHas(s.found, job, e);
      EntriesHave(t, job, es[1..]);
      assert es == [e] + es[1..];
      forall p
        ensures SomeEntry(es, p) <==> p in EntryPaths(e) || SomeEntry(es[1..], p)
      {
      }
      assert SomeGuard(es) <==> e.Guard? || SomeGuard(es[1..]);
    }
  }

  ghost predicate JobDeclares(j: Job, job: string, path: string) {
    j.head.job == Some(job) && SomeEntry(j.entries, path)
  }

  ghost predicate JobGuards(j: Job, job: string) {
    j.head.job == Some(job) && SomeGuard(j.entries)
  }

  ghost predicate SomeDeclares(jobs: seq<Job>, job: string, path: string) {
    exists j :: j in jobs && JobDeclares(j, job, path)
  }

  ghost predicate SomeGuards(jobs: seq<Job>, job: string) {
    exists j :: j in jobs && JobGuards(j, job)
  }

  lemma {:induction false} JobsHave(s: State, jobs: seq<Job>, after: seq<Line>, plain: string -> bool)
    requires NoneEmpty(s.found) && JobsOk(jobs, after, plain)
    ensures var t := AfterJobs(s, jobs);
      && NoneEmpty(t.found)
      && (forall j, p :: Has(t.found, j, p) <==> Has(s.found, j, p) || SomeDeclares(jobs, j, p))
      && (forall j :: j in t.pool <==> j in s.pool || SomeGuards(jobs, j))
    decreases |jobs|
  {
    if jobs != [] {
      var first := jobs[0];
      var t := AfterEntries(s.(job := first.head.job), first.head.job.value, first.entries);
      EntriesHave(s.(job := first.head.job), first.head.job.value, first.entries);
      JobsHave(t, jobs[1..], after, plain);
      assert jobs == [first] + jobs[1..];
      forall j, p
        ensures SomeDeclares(jobs, j, p) <==> JobDeclares(first, j, p) || SomeDeclares(jobs[1..], j, p)
      {
      }
      forall j
        ensures SomeGuards(jobs, j) <==> JobGuards(first, j) || SomeGuards(jobs[1..], j)
      {
      }
    }
  }

  /** A workflow in the supported forms is read exactly: each job with the scenarios it declares, the pooled jobs
      left out. */
  lemma WorkflowIsRead(w: Workflow, plain: string -> bool)
    requires WorkflowOk(w, plain)
    ensures var r := Outcome(Run(START, WorkflowLines(w), plain)); r.Some? && IsMapOf(r.value, w)
  {
    var s := START.(inJobs := true);
    WorkflowRuns(w, plain);
    JobsHave(s, w.jobs, w.after, plain);
    var t := AfterJobs(s, w.jobs);
    forall j, p
      ensures SomeDeclares(w.jobs, j, p) <==> Declares(w, j, p)
    {
    }
    forall j
      ensures SomeGuards(w.jobs, j) <==> Pooled(w, j)
    {
    }
    ReadIsMap(t, w);
  }

  lemma ReadIsMap(t: State, w: Workflow)
    requires t.inJobs && NoneEmpty(t.found)
    requires forall j, p :: Has(t.found, j, p) <==> Declares(w, j, p)
    requires forall j :: j in t.pool <==> Pooled(w, j)
    ensures Finished(t).Some? && IsMapOf(Finished(t).value, w)
  {
    var m := Finished(t).value;
    forall j
      ensures j in m <==> !Pooled(w, j) && exists p :: Declares(w, j, p)
    {
      if j in t.found {
        var p :| p in t.found[j];
        assert Has(t.found, j, p);
      }
      if p :| Declares(w, j, p) {
        assert Has(t.found, j, p);
      }
    }
    forall j, p | j in m
      ensures p in m[j] <==> Declares(w, j, p)
    {
      assert p in m[j] <==> Has(t.found, j, p);
    }
  }

  // ----- whatever is read is a workflow in the supported forms

  /** The rest of a workflow from inside a job on: the rest of an open block, of the job, and of the workflow. */
  datatype Rest = Rest(body: seq<Line>, entries: seq<Entry>, jobs: seq<Job>, after: seq<Line>)

  function Behind(r: Rest): seq<Line> {
    EntriesLines(r.entries) + (JobsLines(r.jobs) + r.after)
  }

  ghost predicate RestOk(r: Rest, block: Option<Block>, plain: string -> bool) {
    && EntriesOk(r.entries, JobsLines(r.jobs) + r.after, plain) && JobsOk(r.jobs, r.after, plain)
    && (r.after != [] ==> r.after[0].topKey && !r.after[0].header)
    && (block.None? ==> r.body == [])
    && (block.Some? ==>
          && (forall b :: b in r.body ==> b.blank || (b.indent > block.value.indent && plain(b.text)))
          && (Behind(r) != [] ==> !Behind(r)[0].blank && Behind(r)[0].indent <= block.value.indent))
  }

  ghost predicate Splits(r: Rest, lines: seq<Line>, block: Option<Block>, plain: string -> bool) {
    lines == r.body + Behind(r) && RestOk(r, block, plain)
  }

  /** One more entry in front. */
  lemma EntryInFront(e: Entry, r: Rest, lines: seq<Line>, plain: string -> bool) returns (r': Rest)
    requires RestOk(Rest([], r.entries, r.jobs, r.after), None, plain) && EntryOk(e, plain) && EndsBlock(e, Behind(r))
    requires lines == EntryLines(e) + Behind(r)
    ensures Splits(r', lines, None, plain)
  {
    r' := Rest([], [e] + r.entries, r.jobs, r.after);
    assert ([e] + r.entries)[1..] == r.entries;
    Associate(EntryLines(e), EntriesLines(r.entries), JobsLines(r.jobs) + r.after);
    assert [] + Behind(r') == Behind(r');
  }

  lemma BodyInFront(l: Line, r: Rest, lines: seq<Line>, block: Option<Block>, plain: string -> bool) returns (r': Rest)
    requires lines != [] && lines[0] == l && block.Some? && Splits(r, lines[1..], block, plain)
    requires l.blank || (l.indent > block.value.indent && plain(l.text))
    ensures Splits(r', lines, block, plain)
  {
    r' := r.(body := [l] + r.body);
    assert lines == [l] + lines[1..];
    Associate([l], r.body, Behind(r));
  }

  lemma JobInFront(l: Line, r: Rest, lines: seq<Line>, plain: string -> bool) returns (r': Rest)
    requires lines != [] && lines[0] == l && Splits(r, lines[1..], None, plain)
    requires !l.header && !l.topKey && l.job.Some?
    ensures Splits(r', lines, None, plain)
  {
    var j := Job(l, r.entries);
    r' := Rest([], [], [j] + r.jobs, r.after);
    JobLines(j, r.jobs, r.after);
    assert ([j] + r.jobs)[1..] == r.jobs;
    assert r.body + Behind(r) == Behind(r);
    assert lines == [l] + lines[1..];
    assert [] + ([] + (JobsLines(r'.jobs) + r'.after)) == JobsLines(r'.jobs) + r'.after;
  }

  lemma {:induction false} Parse(s: State, lines: seq<Line>, plain: string -> bool) returns (r: Rest)
    requires s.inJobs && s.job.Some? && Run(s, lines, plain).Some?
    requires s.block.Some? ==> s.block.value.job == s.job.value
    ensures Splits(r, lines, s.block, plain)
    decreases |lines|, 3
  {
    if lines == [] {
      r := Rest([], [], [], []);
      assert [] + Behind(r) == [];
    } else if s.block.Some? {
      r := ParseInBlock(s, lines, plain);
    } else {
      r := ParseFree(s, lines, plain);
    }
  }

  lemma {:induction false} ParseInBlock(s: State, lines: seq<Line>, plain: string -> bool) returns (r: Rest)
    requires s.inJobs && s.job.Some? && Run(s, lines, plain).Some? && lines != []
    requires s.block.Some? && s.block.value.job == s.job.value
    ensures Splits(r, lines, s.block, plain)
    decreases |lines|, 2
  {
    var l := lines[0];
    if l.blank {
      r := Parse(s, lines[1..], plain);
      r := BodyInFront(l, r, lines, s.block, plain);
    } else if l.indent > s.block.value.indent {
      r := Parse(s.(found := Add(s.found, s.block.value.job, l.text)), lines[1..], plain);
      r := BodyInFront(l, r, lines, s.block, plain);
    } else {
      r := ParseFree(s.(block := None), lines, plain);
      assert [] + Behind(r) == Behind(r);
    }
  }

  lemma {:induction false} ParseFree(s: State, lines: seq<Line>, plain: string -> bool) returns (r: Rest)
    requires s.inJobs && s.job.Some? && Run(s, lines, plain).Some? && lines != [] && s.block.None?
    ensures Splits(r, lines, None, plain)
    decreases |lines|, 1
  {
    var l := lines[0];
    assert lines == [l] + lines[1..];
    if !l.header && l.topKey {
      r := Rest([], [], [], lines);
      assert [] + ([] + ([] + lines)) == lines;
    } else if !l.header && l.job.Some? {
      r := Parse(s.(job := l.job), lines[1..], plain);
      r := JobInFront(l, r, lines, plain);
    } else {
      r := ParseEntry(s, l, lines, plain);
    }
  }

  /** The entry a line begins, with the block that follows it. */
  function EntryOf(l: Line, body: seq<Line>): Entry {
    if l.header || (!l.guard && l.scenarios.None?) then Noise(l)
    else if l.guard then Guard(l)
    else if IsFolded(l.scenarios.value) then Folded(l, body)
    else Single(l)
  }

  /** Where a line that begins an entry leaves the scan. */
  lemma EntryBegins(s: State, l: Line, plain: string -> bool)
    requires s.inJobs && s.job.Some? && s.block.None? && Inside(l) && FreeLine(s, l, plain) != Raise
    ensures FreeLine(s, l, plain).Go?
    ensures var t := FreeLine(s, l, plain).state;
      && t.inJobs && t.job == s.job
      && t.block == (if EntryOf(l, []).Folded? then Some(Block(s.job.value, l.indent)) else None)
      && (!EntryOf(l, []).Folded? ==> EntryOk(EntryOf(l, []), plain))
  {
  }

  lemma {:induction false} ParseEntry(s: State, l: Line, lines: seq<Line>, plain: string -> bool) returns (r: Rest)
    requires s.inJobs && s.job.Some? && Run(s, lines, plain).Some? && lines != [] && lines[0] == l && s.block.None?
    requires Inside(l)
    ensures Splits(r, lines, None, plain)
    decreases |lines|, 0
  {
    EntryBegins(s, l, plain);
    var rest := Parse(FreeLine(s, l, plain).state, lines[1..], plain);
    assert lines == [l] + lines[1..];
    Associate([l], rest.body, Behind(rest));
    r := EntryInFront(EntryOf(l, rest.body), rest, lines, plain);
  }

  lemma {:induction false} ParseLead(s: State, lines: seq<Line>, plain: string -> bool)
    returns (lead: seq<Line>, jobs: seq<Job>, after: seq<Line>)
    requires s.inJobs && s.job.None? && s.block.None? && Run(s, lines, plain).Some?
    ensures lines == lead + (JobsLines(jobs) + after) && (forall l :: l in lead ==> Inside(l))
    ensures JobsOk(jobs, after, plain) && (after != [] ==> after[0].topKey && !after[0].header)
    decreases |lines|
  {
    if lines == [] {
      lead, jobs, after := [], [], [];
    } else {
      var l := lines[0];
      assert lines == [l] + lines[1..];
      if Inside(l) {
        lead, jobs, after := ParseLead(s, lines[1..], plain);
        Associate([l], lead, JobsLines(jobs) + after);
        lead := [l] + lead;
      } else if l.topKey {
        lead, jobs, after := [], [], lines;
        assert [] + ([] + lines) == lines;
      } else {
        var r := Parse(s.(job := l.job), lines[1..], plain);
        var j := Job(l, r.entries);
        lead, jobs, after := [], [j] + r.jobs, r.after;
        JobLines(j, r.jobs, r.after);
        assert jobs[1..] == r.jobs && r.body + Behind(r) == Behind(r);
        assert [] + (JobsLines(jobs) + after) == JobsLines(jobs) + after;
      }
    }
  }

  lemma {:induction false} ParseAll(lines: seq<Line>, plain: string -> bool) returns (w: Workflow)
    requires Outcome(Run(START, lines, plain)).Some?
    ensures WorkflowLines(w) == lines && WorkflowOk(w, plain)
    decreases |lines|
  {
    var l := lines[0];
    assert lines == [l] + lines[1..];
    if l.header {
      var lead, jobs, after := ParseLead(START.(inJobs := true), lines[1..], plain);
      w := Workflow([], l, lead, jobs, after);
      assert [] + ([l] + (lead + (JobsLines(jobs) + after))) == lines;
    } else {
      var v := ParseAll(lines[1..], plain);
      w := v.(before := [l] + v.before);
      Associate([l], v.before, [v.header] + (v.lead + (JobsLines(v.jobs) + v.after)));
    }
  }

  /** The scan gives a map exactly for the workflows in the supported forms, and the map is theirs; for any other
      text it raises, and the caller fires the whole lane. */
  lemma ReadIffSupported(lines: seq<Line>, plain: string -> bool)
    ensures Outcome(Run(START, lines, plain)).Some? <==> exists w :: WorkflowOk(w, plain) && WorkflowLines(w) == lines
    ensures forall w :: WorkflowOk(w, plain) && WorkflowLines(w) == lines
              ==> IsMapOf(Outcome(Run(START, lines, plain)).value, w)
  {
    if Outcome(Run(START, lines, plain)).Some? {
      var w := ParseAll(lines, plain);
    }
    forall w | WorkflowOk(w, plain) && WorkflowLines(w) == lines
      ensures Outcome(Run(START, lines, plain)).Some? && IsMapOf(Outcome(Run(START, lines, plain)).value, w)
    {
      WorkflowIsRead(w, plain);
    }
  }
}
