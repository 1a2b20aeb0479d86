/** Cleanup rules compiled three ways: `try`/`catch`/`finally` in TypeScript and Kotlin
    (`bajutsu/codegen/playwright.py`, `bajutsu/codegen/uiautomator.py`), a teardown block in Swift
    (`bajutsu/codegen/xcuitest.py`), run on a small semantics of each. */
module Cleanup {

  datatype Option<+T> = None | Some(value: T)

  datatype On = Always | Success | Failure

  /** A step of a cleanup rule; `fails` is what happens when the generated line runs. */
  datatype Step = Step(name: string, fails: bool)

  datatype Rule = Rule(on: On, steps: seq<Step>)

  // ----- what the runner does: the rules due for the outcome, in declaration order

  predicate IsDue(on: On, passed: bool) {
    on == Always || on == if passed then Success else Failure
  }

  function Due(rules: seq<Rule>, passed: bool): seq<Step> {
    if rules == [] then []
    else (if IsDue(rules[0].on, passed) then rules[0].steps else []) + Due(rules[1..], passed)
  }

  // ----- the emitted statements

  datatype Stmt =
    | Call(step: Step)
    | MarkFailed                              // `bajutsuFailed = true`
    | Rethrow                                 // `throw bajutsuError`
    | If(failed: bool, body: seq<Stmt>)       // `if (bajutsuFailed)`, or its negation

  function Calls(steps: seq<Step>): seq<Stmt> {
    if steps == [] then [] else [Call(steps[0])] + Calls(steps[1..])
  }

  /** One rule's lines. */
  function RuleLines(r: Rule): seq<Stmt> {
    if r.on == Always then Calls(r.steps) else [If(r.on == Failure, Calls(r.steps))]
  }

  function AllLines(rules: seq<Rule>): seq<Stmt> {
    if rules == [] then [] else RuleLines(rules[0]) + AllLines(rules[1..])
  }

  predicate Branching(rules: seq<Rule>) {
    exists i :: 0 <= i < |rules| && rules[i].on != Always
  }

  /** The code around the test body. */
  datatype Frame =
    | Bare
    | Guard(handler: Option<seq<Stmt>>, after: seq<Stmt>)   // `try { body } catch { ... } finally { ... }`
    | Teardown(readsVerdict: bool, block: seq<Stmt>)        // `addTeardownBlock { ... }`, then the body

  function GuardOf(rules: seq<Rule>): Frame {
    if rules == [] then Bare
    else Guard(if Branching(rules) then Some([MarkFailed, Rethrow]) else None, AllLines(rules))
  }

  function TeardownOf(rules: seq<Rule>): Frame {
    if rules == [] then Bare else Teardown(Branching(rules), AllLines(rules))
  }

  /** `cleanup_lines` of the Playwright and UI Automator emitters. */
  method EmitGuard(rules: seq<Rule>) returns (frame: Frame)
    ensures frame == GuardOf(rules)
  {
    if rules == [] {
      return Bare;
    }
    var lines := EmitRules(rules);
    frame := Guard(if Branching(rules) then Some([MarkFailed, Rethrow]) else None, lines);
  }

  /** `cleanup_lines` of the XCUITest emitter. */
  method EmitTeardown(rules: seq<Rule>) returns (frame: Frame)
    ensures frame == TeardownOf(rules)
  {
    if rules == [] {
      return Bare;
    }
    var lines := EmitRules(rules);
    frame := Teardown(Branching(rules), lines);
  }

  method EmitRules(rules: seq<Rule>) returns (lines: seq<Stmt>)
    ensures lines == AllLines(rules)
  {
    lines := [];
    for i := 0 to |rules|
      invariant lines + AllLines(rules[i..]) == AllLines(rules)
    {
      assert rules[i..][1..] == rules[i + 1..];
      Associate(lines, RuleLines(rules[i]), AllLines(rules[i + 1..]));
      lines := lines + RuleLines(rules[i]);
    }
  }

  lemma Associate<T>(a: seq<T>, b: seq<T>, c: seq<T>)
    ensures a + (b + c) == (a + b) + c
  {
  }

  // ----- a language where a failing step throws

  datatype Error = BodyError | StepError(name: string)

  datatype State = State(failed: bool, trace: seq<Step>, thrown: Option<Error>)

  function Exec(stmts: seq<Stmt>, s: State): State
    decreases stmts
  {
    if stmts == [] || s.thrown.Some? then s
    else
      var t := match stmts[0]
        case Call(step) =>
          s.(trace := s.trace + [step], thrown := if step.fails then Some(StepError(step.name)) else None)
        case MarkFailed => s.(failed := true)
        case Rethrow => s.(thrown := Some(BodyError))
        case If(failed, body) => if s.failed == failed then Exec(body, s) else s;
      Exec(stmts[1..], t)
  }

  /** The test ran: the cleanup steps taken, and the error the test ends with. A failing `finally` takes the place
      of the error it interrupts. */
  function RunGuard(frame: Frame, passed: bool): State
    requires !frame.Teardown?
  {
    var body := State(false, [], if passed then None else Some(BodyError));
    match frame
    case Bare => body
    case Guard(handler, after) =>
      var caught := if !passed && handler.Some? then Exec(handler.value, body.(thrown := None)) else body;
      var last := Exec(after, caught.(thrown := None));
      if last.thrown.Some? then last else last.(thrown := caught.thrown)
  }

  // ----- a language where a failing step is recorded and the test goes on

  datatype Record = Record(trace: seq<Step>, errors: seq<Error>)

  function ExecRecording(stmts: seq<Stmt>, failed: bool, r: Record): Record
    decreases stmts
  {
    if stmts == [] then r
    else
      var t := match stmts[0]
        case Call(step) =>
          Record(r.trace + [step], r.errors + if step.fails then [StepError(step.name)] else [])
        case If(whenFailed, body) => if failed == whenFailed then ExecRecording(body, failed, r) else r
        case _ => r;
      ExecRecording(stmts[1..], failed, t)
  }

  /** The block runs after the body whatever its outcome, and reads the verdict once, before its first line. */
  function RunTeardown(frame: Frame, passed: bool): Record
    requires !frame.Guard?
  {
    var body := Record([], if passed then [] else [BodyError]);
    match frame
    case Bare => body
    case Teardown(_, block) => ExecRecording(block, !passed, body)
  }

  // ----- the two forms against the runner

  /** The steps up to the first that fails, that one included. */
  function Until(steps: seq<Step>): seq<Step> {
    if steps == [] then [] else if steps[0].fails then [steps[0]] else [steps[0]] + Until(steps[1..])
  }

  function FirstError(steps: seq<Step>): Option<Error> {
    if steps == [] then None
    else if steps[0].fails then Some(StepError(steps[0].name))
    else FirstError(steps[1..])
  }

  function StepErrors(steps: seq<Step>): seq<Error> {
    if steps == [] then []
    else (if steps[0].fails then [StepError(steps[0].name)] else []) + StepErrors(steps[1..])
  }

  predicate NoneFails(steps: seq<Step>) {
    forall i :: 0 <= i < |steps| ==> !steps[i].fails
  }

  lemma {:induction false} UntilConcat(a: seq<Step>, b: seq<Step>)
    ensures Until(a + b) == Until(a) + (if FirstError(a).Some? then [] else Until(b))
    ensures FirstError(a + b) == if FirstError(a).Some? then FirstError(a) else FirstError(b)
  {
    if a == [] {
      assert a + b == b;
    } else {
      assert (a + b)[1..] == a[1..] + b;
      UntilConcat(a[1..], b);
      assert [a[0]] + (Until(a[1..]) + Until(b)) == ([a[0]] + Until(a[1..])) + Until(b);
    }
  }

  lemma {:induction false} ExecConcat(a: seq<Stmt>, b: seq<Stmt>, s: State)
    ensures Exec(a + b, s) == Exec(b, Exec(a, s))
    decreases |a|
  {
    if a == [] {
      assert a + b == b;
    } else if s.thrown.None? {
      assert (a + b)[1..] == a[1..] + b;
      var t := match a[0]
        case Call(step) =>
          s.(trace := s.trace + [step], thrown := if step.fails then Some(StepError(step.name)) else None)
        case MarkFailed => s.(failed := true)
        case Rethrow => s.(thrown := Some(BodyError))
        case If(failed, body) => if s.failed == failed then Exec(body, s) else s;
      ExecConcat(a[1..], b, t);
    }
  }

  /** Steps in a row: up to the first that fails. */
  lemma {:induction false} ExecCalls(steps: seq<Step>, s: State)
    requires s.thrown.None?
    ensures Exec(Calls(steps), s) == s.(trace := s.trace + Until(steps), thrown := FirstError(steps))
  {
    if steps == [] {
      assert s.trace + [] == s.trace;
    } else {
      assert Calls(steps)[1..] == Calls(steps[1..]);
      var t := s.(trace := s.trace + [steps[0]]);
      if steps[0].fails {
        assert Exec(Calls(steps[1..]), t.(thrown := Some(StepError(steps[0].name))))
            == t.(thrown := Some(StepError(steps[0].name)));
      } else {
        ExecCalls(steps[1..], t);
        assert t.trace + Until(steps[1..]) == s.trace + ([steps[0]] + Until(steps[1..]));
      }
    }
  }

  lemma ExecRule(r: Rule, s: State)
    requires s.thrown.None?
    ensures var due := if IsDue(r.on, !s.failed) then r.steps else [];
      Exec(RuleLines(r), s) == s.(trace := s.trace + Until(due), thrown := FirstError(due))
  {
    ExecCalls(r.steps, s);
    assert s.trace + [] == s.trace;
    if r.on != Always {
      var t := if s.failed == (r.on == Failure) then Exec(Calls(r.steps), s) else s;
      assert RuleLines(r)[1..] == [];
      assert Exec([], t) == t;
    }
  }

  lemma {:induction false} ExecRules(rules: seq<Rule>, s: State)
    requires s.thrown.None?
    ensures var due := Due(rules, !s.failed);
      Exec(AllLines(rules), s) == s.(trace := s.trace + Until(due), thrown := FirstError(due))
  {
    if rules == [] {
      assert s.trace + [] == s.trace;
    } else {
      var r := rules[0];
      var mine := if IsDue(r.on, !s.failed) then r.steps else [];
      ExecConcat(RuleLines(r), AllLines(rules[1..]), s);
      ExecRule(r, s);
      UntilConcat(mine, Due(rules[1..], !s.failed));
      var t := Exec(RuleLines(r), s);
      if t.thrown.None? {
        ExecRules(rules[1..], t);
        Associate(s.trace, Until(mine), Until(Due(rules[1..], !s.failed)));
      }
    }
  }

  /** The guarded test takes the due steps in order, up to the first that fails, whose error it ends with; with no
      such step it ends as the body did. */
  lemma GuardRuns(rules: seq<Rule>, passed: bool)
    ensures var due := Due(rules, passed); var s := RunGuard(GuardOf(rules), passed);
      && s.trace == Until(due)
      && s.thrown == (if FirstError(due).Some? then FirstError(due) else if passed then None else Some(BodyError))
  {
    if rules != [] {
      if !Branching(rules) {
        SameDue(rules);
      }
      var start := State(!passed && Branching(rules), [], None);
      ExecRules(rules, start);
      HandlerRethrows();
    }
  }

  lemma HandlerRethrows()
    ensures Exec([MarkFailed, Rethrow], State(false, [], None)) == State(true, [], Some(BodyError))
  {
    assert [MarkFailed, Rethrow][1..] == [Rethrow] && [Rethrow][1..] == [];
  }

  /** Without a branching rule nothing depends on the outcome. */
  lemma {:induction false} SameDue(rules: seq<Rule>)
    requires !Branching(rules)
    ensures Due(rules, true) == Due(rules, false)
  {
    if rules != [] {
      assert rules[0].on == Always;
      assert forall i :: 0 <= i < |rules[1..]| ==> rules[1..][i] == rules[i + 1];
      SameDue(rules[1..]);
    }
  }

  lemma {:induction false} RecordConcat(a: seq<Stmt>, b: seq<Stmt>, failed: bool, r: Record)
    ensures ExecRecording(a + b, failed, r) == ExecRecording(b, failed, ExecRecording(a, failed, r))
    decreases |a|
  {
    if a == [] {
      assert a + b == b;
    } else {
      assert (a + b)[1..] == a[1..] + b;
      var t := match a[0]
        case Call(step) =>
          Record(r.trace + [step], r.errors + if step.fails then [StepError(step.name)] else [])
        case If(whenFailed, body) => if failed == whenFailed then ExecRecording(body, failed, r) else r
        case _ => r;
      RecordConcat(a[1..], b, failed, t);
    }
  }

  lemma {:induction false} RecordCalls(steps: seq<Step>, failed: bool, r: Record)
    ensures ExecRecording(Calls(steps), failed, r) == Record(r.trace + steps, r.errors + StepErrors(steps))
  {
    if steps == [] {
      assert r.trace + [] == r.trace && r.errors + [] == r.errors;
    } else {
      assert Calls(steps)[1..] == Calls(steps[1..]);
      var e := if steps[0].fails then [StepError(steps[0].name)] else [];
      RecordCalls(steps[1..], failed, Record(r.trace + [steps[0]], r.errors + e));
      Associate(r.trace, [steps[0]], steps[1..]);
      assert [steps[0]] + steps[1..] == steps;
      Associate(r.errors, e, StepErrors(steps[1..]));
    }
  }

  lemma {:induction false} ErrorsConcat(a: seq<Step>, b: seq<Step>)
    ensures StepErrors(a + b) == StepErrors(a) + StepErrors(b)
  {
    if a == [] {
      assert a + b == b;
    } else {
      assert (a + b)[1..] == a[1..] + b;
      ErrorsConcat(a[1..], b);
      Associate(if a[0].fails then [StepError(a[0].name)] else [], StepErrors(a[1..]), StepErrors(b));
    }
  }

  lemma {:induction false} RecordRules(rules: seq<Rule>, failed: bool, r: Record)
    ensures var due := Due(rules, !failed);
      ExecRecording(AllLines(rules), failed, r) == Record(r.trace + due, r.errors + StepErrors(due))
  {
    if rules == [] {
      assert r.trace + [] == r.trace && r.errors + [] == r.errors;
    } else {
      var mine, rest := if IsDue(rules[0].on, !failed) then rules[0].steps else [], Due(rules[1..], !failed);
      RecordConcat(RuleLines(rules[0]), AllLines(rules[1..]), failed, r);
      RecordRule(rules[0], failed, r);
      RecordRules(rules[1..], failed, Record(r.trace + mine, r.errors + StepErrors(mine)));
      ErrorsConcat(mine, rest);
      Associate(r.trace, mine, rest);
      Associate(r.errors, StepErrors(mine), StepErrors(rest));
    }
  }

  lemma RecordRule(rule: Rule, failed: bool, r: Record)
    ensures var due := if IsDue(rule.on, !failed) then rule.steps else [];
      ExecRecording(RuleLines(rule), failed, r) == Record(r.trace + due, r.errors + StepErrors(due))
  {
    RecordCalls(rule.steps, failed, r);
    assert r.trace + [] == r.trace && r.errors + [] == r.errors;
    if rule.on != Always {
      assert RuleLines(rule)[1..] == [];
      var t := if failed == (rule.on == Failure) then ExecRecording(Calls(rule.steps), failed, r) else r;
      assert ExecRecording([], failed, t) == t;
    }
  }

  /** The teardown block takes every due step, and reports the body's failure and every failing step's. */
  lemma TeardownRuns(rules: seq<Rule>, passed: bool)
    ensures var due := Due(rules, passed); var r := RunTeardown(TeardownOf(rules), passed);
      r.trace == due && r.errors == (if passed then [] else [BodyError]) + StepErrors(due)
  {
    if rules != [] {
      RecordRules(rules, !passed, Record([], if passed then [] else [BodyError]));
    }
  }

  // ----- the three forms side by side

  lemma {:induction false} NoErrorIff(steps: seq<Step>)
    ensures FirstError(steps) == None <==> NoneFails(steps)
    ensures StepErrors(steps) == [] <==> NoneFails(steps)
    ensures NoneFails(steps) ==> Until(steps) == steps
  {
    if steps != [] {
      NoErrorIff(steps[1..]);
      assert steps == [steps[0]] + steps[1..];
    }
  }

  lemma {:induction false} UntilIff(steps: seq<Step>)
    ensures Until(steps) == steps <==> forall i :: 0 <= i < |steps| - 1 ==> !steps[i].fails
  {
    if steps != [] {
      UntilIff(steps[1..]);
      assert steps == [steps[0]] + steps[1..];
      assert steps[0].fails ==> (Until(steps) == steps <==> |steps| == 1);
      assert forall i :: 0 <= i < |steps[1..]| ==> steps[1..][i] == steps[i + 1];
      assert !steps[0].fails ==> (Until(steps) == steps <==> Until(steps[1..]) == steps[1..]) by {
        assert ([steps[0]] + Until(steps[1..]))[1..] == Until(steps[1..]);
      }
    }
  }

  /** All forms pass and fail together. */
  lemma VerdictsAgree(rules: seq<Rule>, passed: bool)
    ensures RunGuard(GuardOf(rules), passed).thrown == None <==> passed && NoneFails(Due(rules, passed))
    ensures RunTeardown(TeardownOf(rules), passed).errors == [] <==> passed && NoneFails(Due(rules, passed))
  {
    GuardRuns(rules, passed);
    TeardownRuns(rules, passed);
    NoErrorIff(Due(rules, passed));
  }

  /** They take the same steps exactly when no due step but the last fails: after a failing step the guarded forms
      drop the rest, the teardown block goes on. */
  lemma TracesAgreeIff(rules: seq<Rule>, passed: bool)
    ensures RunGuard(GuardOf(rules), passed).trace == RunTeardown(TeardownOf(rules), passed).trace
       <==> forall i :: 0 <= i < |Due(rules, passed)| - 1 ==> !Due(rules, passed)[i].fails
  {
    GuardRuns(rules, passed);
    TeardownRuns(rules, passed);
    UntilIff(Due(rules, passed));
  }

  /** The teardown block always reports the body's failure; the guarded forms report it exactly when no due step
      fails. */
  lemma BodyFailureReported(rules: seq<Rule>)
    ensures BodyError in RunTeardown(TeardownOf(rules), false).errors
    ensures RunGuard(GuardOf(rules), false).thrown == Some(BodyError) <==> NoneFails(Due(rules, false))
  {
    GuardRuns(rules, false);
    TeardownRuns(rules, false);
    NoErrorIff(Due(rules, false));
    FirstErrorIsStep(Due(rules, false));
  }

  lemma {:induction false} FirstErrorIsStep(steps: seq<Step>)
    ensures FirstError(steps) != Some(BodyError)
  {
    if steps != [] {
      FirstErrorIsStep(steps[1..]);
    }
  }
}
