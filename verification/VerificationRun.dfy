module VerificationRun {
  /** Running a verification profile: one check at a time, stopping at the first failed required check. */

  import opened Wrappers
  import opened VerificationProfile

  datatype CheckOutcome =
    | Passed | Failed | TimedOut | PolicyBlocked | Skipped | ZeroSelection | Advisory | CoverageUnavailable

  datatype CoverageVerdict = CoveragePassed | CoverageAdvisory | CoverageMissing

  /** What the world does with one check: the process, its output and the coverage report. */
  datatype Execution =
    | DirectoryMissing
    | Exited(code: Option<int>, warnings: bool, noTests: bool, report: CoverageVerdict)
    | Killed
    | CommandNotFound
    | Crashed(status: int)

  datatype CheckResult = CheckResult(checkId: string, intent: Intent, required: bool, outcome: CheckOutcome, exitCode: Option<int>)

  datatype Status = StatusPassed | StatusFailed | StatusBlocked | StatusSkipped

  // ---------------------------------------------------------------------------
  // One check
  // ---------------------------------------------------------------------------

  function Classify(exitCode: Option<int>, timedOut: bool, policyBlocked: bool, skipped: bool, zeroSelection: bool): CheckOutcome {
    if timedOut then TimedOut
    else if policyBlocked then PolicyBlocked
    else if skipped then Skipped
    else if zeroSelection then ZeroSelection
    else if exitCode == Some(0) then Passed
    else if exitCode.Some? then Failed
    else Skipped
  }

  /** A coverage check never stops the run. */
  function NormalizeCoverage(intent: Intent, outcome: CheckOutcome): CheckOutcome {
    if intent != Coverage || outcome == Passed || outcome == Advisory then outcome else CoverageUnavailable
  }

  /** The outcome of a process that ran to its end. */
  function ExitOutcome(check: Check, code: Option<int>, warnings: bool, noTests: bool, report: CoverageVerdict): CheckOutcome {
    var plain := Classify(code, false, false, false, check.intent == Test && code == Some(0) && noTests);
    var warned := if warnings && (check.intent == Build || check.intent == Lint) && plain == Passed then Failed else plain;
    if warned == Passed && check.intent == Coverage then
      match report
      case CoveragePassed => Passed
      case CoverageAdvisory => Advisory
      case CoverageMissing => CoverageUnavailable
    else warned
  }

  function OutcomeOf(check: Check, e: Execution): CheckOutcome {
    match e
    case DirectoryMissing => if check.intent == Coverage then CoverageUnavailable else PolicyBlocked
    case Exited(code, warnings, noTests, report) =>
      NormalizeCoverage(check.intent, ExitOutcome(check, code, warnings, noTests, report))
    case Killed => NormalizeCoverage(check.intent, TimedOut)
    case CommandNotFound => NormalizeCoverage(check.intent, PolicyBlocked)
    case Crashed(_) => NormalizeCoverage(check.intent, Failed)
  }

  function RunCheck(check: Check, e: Execution): CheckResult {
    var exitCode := match e
      case Exited(code, _, _, _) => code
      case Crashed(status) => Some(status)
      case _ => None;
    CheckResult(check.id, check.intent, check.required, OutcomeOf(check, e), exitCode)
  }

  predicate Successful(outcome: CheckOutcome) {
    outcome == Passed || outcome == Advisory || outcome == CoverageUnavailable
  }

  /** A required check that did not succeed. */
  predicate Fails(r: CheckResult) {
    r.required && !Successful(r.outcome)
  }

  /** Success of a build, test or lint check is exit code zero, no warnings where they count, and tests that ran. */
  lemma {:induction false} PassedMeans(check: Check, e: Execution)
    ensures OutcomeOf(check, e) == Passed <==>
      && e.Exited? && e.code == Some(0)
      && (check.intent == Build || check.intent == Lint ==> !e.warnings)
      && (check.intent == Test ==> !e.noTests)
      && (check.intent == Coverage ==> e.report == CoveragePassed)
    ensures check.intent != Coverage ==> (Successful(OutcomeOf(check, e)) <==> OutcomeOf(check, e) == Passed)
    ensures check.intent == Coverage ==> Successful(OutcomeOf(check, e))
  {
  }

  /** Which execution of a check that measures no coverage gives which outcome. */
  lemma {:induction false} OutcomeIff(check: Check, e: Execution)
    requires check.intent != Coverage
    ensures var outcome, clean := OutcomeOf(check, e), e.Exited? && e.code == Some(0);
      && (outcome == TimedOut <==> e == Killed)
      && (outcome == PolicyBlocked <==> e == DirectoryMissing || e == CommandNotFound)
      && (outcome == Skipped <==> e.Exited? && e.code == None)
      && (outcome == ZeroSelection <==> clean && check.intent == Test && e.noTests)
      && (outcome == Failed <==> (
            || e.Crashed?
            || (e.Exited? && e.code.Some? && e.code.value != 0)
            || (clean && e.warnings && (check.intent == Build || check.intent == Lint))))
      && outcome != Advisory && outcome != CoverageUnavailable
  {
  }

  /** A coverage check is judged by its report when its command succeeded, and is unavailable otherwise. */
  lemma {:induction false} CoverageOutcomeIff(check: Check, e: Execution)
    requires check.intent == Coverage
    ensures var outcome, clean := OutcomeOf(check, e), e.Exited? && e.code == Some(0);
      && (outcome == Passed <==> clean && e.report == CoveragePassed)
      && (outcome == Advisory <==> clean && e.report == CoverageAdvisory)
      && (outcome == CoverageUnavailable <==> !clean || e.report == CoverageMissing)
  {
  }

  /** What is recorded of a check besides its outcome: who it is, and the exit code its process left, if it left one. */
  lemma {:induction false} RecordedFields(check: Check, e: Execution)
    ensures var r := RunCheck(check, e);
      && r.checkId == check.id && r.intent == check.intent && r.required == check.required && r.outcome == OutcomeOf(check, e)
      && (e.Exited? ==> r.exitCode == e.code) && (e.Crashed? ==> r.exitCode == Some(e.status))
      && (!e.Exited? && !e.Crashed? ==> r.exitCode == None)
  {
  }

  // ---------------------------------------------------------------------------
  // The loop
  // ---------------------------------------------------------------------------

  function Select(checks: seq<Check>, final: bool): seq<Check>
    decreases |checks|
  {
    if checks == [] then []
    else (if checks[0].runAt != FinalCheckpoint || final then [checks[0]] else []) + Select(checks[1..], final)
  }

  lemma {:induction false} FinalSelectsAll(checks: seq<Check>)
    ensures Select(checks, true) == checks
    decreases |checks|
  {
    if checks != [] {
      FinalSelectsAll(checks[1..]);
    }
  }

  predicate SuppressNext(results: seq<CheckResult>) {
    exists i :: 0 <= i < |results| && Fails(results[i])
  }

  /** The checks were run from the first on, in order, up to and including the first failing one. */
  ghost predicate FailFast(checks: seq<Check>, world: seq<Execution>, results: seq<CheckResult>)
    requires |world| == |checks|
  {
    && |results| <= |checks|
    && (forall i :: 0 <= i < |results| ==> results[i] == RunCheck(checks[i], world[i]))
    && (forall i :: 0 <= i < |results| - 1 ==> !Fails(results[i]))
    && (|results| < |checks| ==> results != [] && Fails(results[|results| - 1]))
  }

  method RunChecks(checks: seq<Check>, world: seq<Execution>) returns (results: seq<CheckResult>)
    requires |world| == |checks|
    ensures FailFast(checks, world, results)
  {
    results := [];
    var i := 0;
    while i < |checks|
      invariant 0 <= i <= |checks| && |results| == i
      invariant forall j :: 0 <= j < i ==> results[j] == RunCheck(checks[j], world[j]) && !Fails(results[j])
    {
      results := results + [RunCheck(checks[i], world[i])];
      if SuppressNext(results) {
        return;
      }
      i := i + 1;
    }
  }

  // ---------------------------------------------------------------------------
  // The aggregate
  // ---------------------------------------------------------------------------

  predicate SomeRequired(results: seq<CheckResult>, outcomes: set<CheckOutcome>) {
    exists i :: 0 <= i < |results| && results[i].required && results[i].outcome in outcomes
  }

  predicate AnyRequired(results: seq<CheckResult>) {
    exists i :: 0 <= i < |results| && results[i].required
  }

  function ComputeStatus(results: seq<CheckResult>): Status {
    if results == [] then StatusSkipped
    else if SomeRequired(results, {PolicyBlocked}) then StatusBlocked
    else if SomeRequired(results, {TimedOut}) then StatusBlocked
    else if SomeRequired(results, {Failed, ZeroSelection}) then StatusFailed
    else if SomeRequired(results, {Skipped}) then StatusBlocked
    else if !AnyRequired(results) then StatusSkipped
    else StatusPassed
  }

  function FailedRequiredIds(results: seq<CheckResult>): seq<string>
    decreases |results|
  {
    if results == [] then []
    else (if Fails(results[0]) then [results[0].checkId] else []) + FailedRequiredIds(results[1..])
  }

  /** The blocked reason, as the check it names and why. */
  datatype Reason = Reason(checkId: string, outcome: CheckOutcome, exitCode: Option<int>)

  function FirstReason(results: seq<CheckResult>): Option<Reason>
    decreases |results|
  {
    if results == [] then None
    else if results[0].required && results[0].outcome in {PolicyBlocked, TimedOut, Failed, Skipped, ZeroSelection}
    then Some(Reason(results[0].checkId, results[0].outcome, results[0].exitCode))
    else FirstReason(results[1..])
  }

  function BlockedReason(results: seq<CheckResult>): Option<Reason> {
    var status := ComputeStatus(results);
    if status == StatusBlocked || status == StatusFailed then FirstReason(results) else None
  }

  /** The early-return loop that words the blocked reason. */
  method GetBlockedReason(results: seq<CheckResult>, status: Status) returns (reason: Option<Reason>)
    requires status == ComputeStatus(results)
    ensures reason == BlockedReason(results)
  {
    if status != StatusBlocked && status != StatusFailed {
      return None;
    }
    var i := 0;
    while i < |results|
      invariant 0 <= i <= |results| && FirstReason(results) == FirstReason(results[i..])
    {
      var r := results[i];
      if r.required {
        match r.outcome
        case PolicyBlocked => return Some(Reason(r.checkId, r.outcome, r.exitCode));
        case TimedOut => return Some(Reason(r.checkId, r.outcome, r.exitCode));
        case Failed => return Some(Reason(r.checkId, r.outcome, r.exitCode));
        case Skipped => return Some(Reason(r.checkId, r.outcome, r.exitCode));
        case ZeroSelection => return Some(Reason(r.checkId, r.outcome, r.exitCode));
        case _ =>
      }
      assert results[i..][1..] == results[i + 1..];
      i := i + 1;
    }
    return None;
  }

  lemma {:induction false} NoFailures(results: seq<CheckResult>)
    requires forall i :: 0 <= i < |results| ==> !Fails(results[i])
    ensures FailedRequiredIds(results) == [] && FirstReason(results) == None
    decreases |results|
  {
    if results != [] {
      NoFailures(results[1..]);
    }
  }

  lemma {:induction false} LastFailure(results: seq<CheckResult>)
    requires results != [] && Fails(results[|results| - 1])
    requires forall i :: 0 <= i < |results| - 1 ==> !Fails(results[i])
    ensures var last := results[|results| - 1];
      FailedRequiredIds(results) == [last.checkId] && FirstReason(results) == Some(Reason(last.checkId, last.outcome, last.exitCode))
    decreases |results|
  {
    if |results| > 1 {
      LastFailure(results[1..]);
    } else {
      assert results[1..] == [];
    }
  }

  lemma {:induction false} StatusWithoutFailure(results: seq<CheckResult>)
    requires forall i :: 0 <= i < |results| ==> !Fails(results[i])
    ensures ComputeStatus(results) == if AnyRequired(results) then StatusPassed else StatusSkipped
  {
  }

  lemma {:induction false} StatusWithFailure(results: seq<CheckResult>)
    requires results != [] && Fails(results[|results| - 1])
    requires forall i :: 0 <= i < |results| - 1 ==> !Fails(results[i])
    ensures ComputeStatus(results)
         == if results[|results| - 1].outcome in {Failed, ZeroSelection} then StatusFailed else StatusBlocked
  {
  }

  // ---------------------------------------------------------------------------
  // Main results
  // ---------------------------------------------------------------------------

  /**
   * Every run ends in one of two ways: the whole plan ran and no required check failed, or it
   * stopped at exactly one failed required check, the last one run, which alone is reported.
   */
  lemma {:induction false} RunEnds(checks: seq<Check>, world: seq<Execution>, results: seq<CheckResult>)
    requires |world| == |checks| && FailFast(checks, world, results)
    ensures ComputeStatus(results) in {StatusPassed, StatusSkipped} <==>
      |results| == |checks| && forall i :: 0 <= i < |results| ==> !Fails(results[i])
    ensures ComputeStatus(results) in {StatusPassed, StatusSkipped} ==> BlockedReason(results) == None && FailedRequiredIds(results) == []
    ensures ComputeStatus(results) in {StatusBlocked, StatusFailed} ==>
      && results != [] && Fails(results[|results| - 1])
      && FailedRequiredIds(results) == [results[|results| - 1].checkId]
      && BlockedReason(results) == Some(Reason(results[|results| - 1].checkId, results[|results| - 1].outcome, results[|results| - 1].exitCode))
  {
    if results != [] && Fails(results[|results| - 1]) {
      LastFailure(results);
      StatusWithFailure(results);
    } else {
      assert forall i :: 0 <= i < |results| ==> !Fails(results[i]);
      NoFailures(results);
      StatusWithoutFailure(results);
    }
  }

  ghost predicate ProvedBy(check: Check, result: CheckResult, intent: Intent) {
    check.required && check.intent == intent && result.checkId == check.id && result.outcome == Passed
  }

  /** The whole plan ran and some required check of it stands for the intent, with outcome exactly passed. */
  ghost predicate Proves(checks: seq<Check>, results: seq<CheckResult>, intent: Intent) {
    && |results| == |checks|
    && exists i :: 0 <= i < |checks| && ProvedBy(checks[i], results[i], intent)
  }

  lemma {:induction false} PassedAt(check: Check, e: Execution, intent: Intent)
    requires check.required && check.intent == intent && intent in REQUIRED_INTENTS && !Fails(RunCheck(check, e))
    ensures ProvedBy(check, RunCheck(check, e), intent)
  {
    PassedMeans(check, e);
  }

  /**
   * At the final checkpoint of an accepted profile, passed means the whole profile ran in declared
   * order and build, test and lint each have a required check that passed outright.
   */
  lemma {:induction false} FinalPassedMeans(profile: seq<Check>, world: seq<Execution>, results: seq<CheckResult>, intent: Intent)
    requires REQUIRED_INTENTS <= Covered(profile) && |world| == |Select(profile, true)|
    requires FailFast(Select(profile, true), world, results) && ComputeStatus(results) == StatusPassed
    requires intent in REQUIRED_INTENTS
    ensures Proves(profile, results, intent)
  {
    FinalSelectsAll(profile);
    RunEnds(profile, world, results);
    assert intent in Covered(profile);
    var i :| 0 <= i < |profile| && profile[i].required && profile[i].intent == intent;
    assert results[i] == RunCheck(profile[i], world[i]) && !Fails(results[i]);
    PassedAt(profile[i], world[i], intent);
  }

  ghost predicate AnyRequiredCheck(checks: seq<Check>) {
    exists i :: 0 <= i < |checks| && checks[i].required
  }

  /** At any checkpoint: passed means the selected checks all ran, some were required, and none of those failed. */
  lemma {:induction false} PassedIff(checks: seq<Check>, world: seq<Execution>, results: seq<CheckResult>)
    requires |world| == |checks| && FailFast(checks, world, results)
    ensures ComputeStatus(results) == StatusPassed <==>
      AnyRequiredCheck(checks) && forall i :: 0 <= i < |checks| ==> !Fails(RunCheck(checks[i], world[i]))
  {
    RunEnds(checks, world, results);
    if forall i :: 0 <= i < |checks| ==> !Fails(RunCheck(checks[i], world[i])) {
      assert |results| == |checks|;
      StatusWithoutFailure(results);
      assert forall i :: 0 <= i < |checks| ==> results[i].required == checks[i].required;
      if AnyRequiredCheck(checks) {
        var i :| 0 <= i < |checks| && checks[i].required;
        assert results[i].required;
      }
      if AnyRequired(results) {
        var i :| 0 <= i < |results| && results[i].required;
        assert checks[i].required;
      }
    }
    if ComputeStatus(results) == StatusPassed {
      assert AnyRequired(results);
      var i :| 0 <= i < |results| && results[i].required;
      assert checks[i].required;
    }
  }

  /**
   * The status of a run, from its last result: failed when that is a required check that failed or
   * selected no test, blocked when it is one that was stopped by policy or time or never ran, and
   * otherwise passed or, when nothing required ran, skipped.
   */
  lemma {:induction false} StatusIff(checks: seq<Check>, world: seq<Execution>, results: seq<CheckResult>)
    requires |world| == |checks| && FailFast(checks, world, results)
    ensures var status := ComputeStatus(results);
      var stopped := results != [] && results[|results| - 1].required;
      var last := if results == [] then Passed else results[|results| - 1].outcome;
      var fails := last == Failed || last == ZeroSelection;
      var blocks := last == PolicyBlocked || last == TimedOut || last == Skipped;
      && (status == StatusFailed <==> stopped && fails)
      && (status == StatusBlocked <==> stopped && blocks)
      && (status == StatusPassed <==> !(stopped && (fails || blocks)) && exists i :: 0 <= i < |results| && results[i].required)
      && (status == StatusSkipped <==> forall i :: 0 <= i < |results| ==> !results[i].required)
  {
    RunEnds(checks, world, results);
    if results != [] && Fails(results[|results| - 1]) {
      StatusWithFailure(results);
      assert results[|results| - 1].required;
    } else {
      assert forall i :: 0 <= i < |results| ==> !Fails(results[i]);
      StatusWithoutFailure(results);
    }
  }

  /** Before the final checkpoint, the checks selected are those not kept for it, in declared order. */
  lemma {:induction false} SelectsEarly(checks: seq<Check>) returns (at: seq<nat>)
    ensures |at| == |Select(checks, false)|
    ensures forall i :: 0 <= i < |at| ==> at[i] < |checks| && Select(checks, false)[i] == checks[at[i]]
    ensures forall i, j :: 0 <= i < j < |at| ==> at[i] < at[j]
    ensures forall k :: 0 <= k < |checks| ==> (checks[k].runAt != FinalCheckpoint <==> k in at)
    decreases |checks|
  {
    at := [];
    if checks != [] {
      var last := |checks| - 1;
      at := SelectsEarly(checks[..last]);
      SelectSnoc(checks[..last], checks[last]);
      assert checks[..last] + [checks[last]] == checks;
      if checks[last].runAt != FinalCheckpoint {
        at := at + [last];
      }
    }
  }

  lemma {:induction false} SelectSnoc(checks: seq<Check>, check: Check)
    ensures Select(checks + [check], false) == Select(checks, false) + if check.runAt != FinalCheckpoint then [check] else []
    decreases |checks|
  {
    if checks == [] {
      assert checks + [check] == [check];
    } else {
      var first := if checks[0].runAt != FinalCheckpoint then [checks[0]] else [];
      var last := if check.runAt != FinalCheckpoint then [check] else [];
      var rest := Select(checks[1..], false);
      assert (checks + [check])[0] == checks[0] && (checks + [check])[1..] == checks[1..] + [check];
      SelectSnoc(checks[1..], check);
      assert Select(checks, false) == first + rest;
      assert first + (rest + last) == (first + rest) + last;
    }
  }
}
