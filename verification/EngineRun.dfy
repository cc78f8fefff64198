/** `run_to_release_ready` and the helpers that change its state: counters, workspace and ledger. */
module EngineRun {
  import opened Json
  import opened Acceptance
  import opened AcceptanceCompiler
  import opened Engine

  datatype Reply = Answered(response: Response) | Denied(cause: Cause) | Crashed
  datatype Written = Wrote(changed: set<string>) | Invalid | OsError
  datatype Verified = Found(findings: seq<Finding>) | ContractInvalid
  datatype Built = Changed(changed: set<string>) | Stuck(cause: Cause, attempts: int) | BuildCrashed
  datatype Turn = Again(findings: seq<Finding>) | End(state: RunState, cause: Cause, attempts: int) | TurnCrashed

  /** The counters of a run. */
  datatype Meter = Meter(calls: nat, bytes: nat, tokensIn: nat, tokensOut: nat, cost: real) {
    ghost predicate Bounded() { tokensIn <= MAX_SAFE_JSON_INTEGER && tokensOut <= MAX_SAFE_JSON_INTEGER && cost >= 0.0 }

    /** The meter moved by at most one provider call, made within the call budget. */
    ghost predicate AfterCall(before: Meter, budget: Budget) {
      && (before.Bounded() ==> Bounded()) && before.tokensIn <= tokensIn && before.tokensOut <= tokensOut
      && (calls == before.calls || (calls == before.calls + 1 && calls <= budget.maxModelCalls))
    }

    /** The meter moved by one coder call and, unless the loop goes on, one review call at most. */
    ghost predicate AfterTurn(before: Meter, budget: Budget, again: bool) {
      && (before.Bounded() ==> Bounded())
      && before.calls <= calls <= before.calls + (if again then 1 else 2)
      && (calls > before.calls ==> calls <= budget.maxModelCalls)
    }
  }

  class Run {
    const env: Environment
    var workspace: Snapshot
    var ledger: seq<Event>
    var meter: Meter
    var tick: nat
    var polls: nat
    ghost var baseline: Snapshot
    ghost var baselineTick: nat
    ghost var baselineFindings: seq<Finding>
    ghost var sealTick: nat
    ghost var guarded: set<string>
    constructor (env: Environment)
      ensures this.env == env && ledger == [] && meter == Meter(0, 0, 0, 0, 0.0) && workspace == map[]
    {
      this.env := env;
      workspace, ledger, meter, tick, polls := map[], [], Meter(0, 0, 0, 0, 0.0), 0, 0;
      baseline, baselineTick, baselineFindings, sealTick, guarded := map[], 0, [], 0, {};
    }

    /** `_invoke_bound`: at most one provider call, counted before it is made; an answer is returned
        only when it is bound to the request, free of credentials and within the byte budget. */
    method Invoke(request: Request) returns (r: Reply)
      modifies this`meter
      ensures meter.AfterCall(old(meter), env.budget)
      ensures old(meter).calls >= env.budget.maxModelCalls ==> r == Denied(ModelCallBudgetExhausted)
      ensures old(meter).calls < env.budget.maxModelCalls ==> meter.calls == old(meter).calls + 1
      ensures r.Answered? ==>
                && env.provider(old(meter).calls, request) == Responds(r.response)
                && r.response.echo == Some(request) && !r.response.credential
                && meter.bytes == old(meter).bytes + r.response.size <= env.budget.maxModelOutputBytes
                && (r.response.usage.Some? ==> UsageOk(old(meter), r.response.usage.value))
      ensures r.Denied? ==> DeniedFor(env, old(meter), request, r.cause)
      ensures r.Crashed? ==> CrashedFor(env, old(meter), request)
    {
      if meter.calls >= env.budget.maxModelCalls { return Denied(ModelCallBudgetExhausted); }
      var answer := env.provider(meter.calls, request);
      meter := meter.(calls := meter.calls + 1);
      if answer.Crashes? { return Crashed; }
      if answer.Raises? { return Denied(Classify(env, answer.error)); }
      var response := answer.response;
      if response.credential { return Denied(ModelResponseContainsCredential); }
      meter := meter.(bytes := meter.bytes + response.size);
      if meter.bytes > env.budget.maxModelOutputBytes { return Denied(ModelOutputBudgetExhausted); }
      if response.echo != Some(request) { return Denied(ModelResponseUnbound); }
      if response.usage.Some? {
        var valid := Charge(response.usage.value);
        if !valid { return Denied(ModelProviderUsageInvalid); }
      }
      r := Answered(response);
    }

    /** Add the reported usage field by field, stopping at the first invalid one. */
    method Charge(usage: Usage) returns (valid: bool)
      modifies this`meter
      ensures old(meter).Bounded() ==> meter.Bounded()
      ensures meter.calls == old(meter).calls && meter.bytes == old(meter).bytes
      ensures meter.tokensIn >= old(meter).tokensIn && meter.tokensOut >= old(meter).tokensOut
      ensures valid <==> UsageOk(old(meter), usage)
      ensures valid ==>
                && meter.tokensIn == old(meter).tokensIn + (if usage.input.Tokens? then usage.input.count else 0)
                && meter.tokensOut == old(meter).tokensOut + (if usage.output.Tokens? then usage.output.count else 0)
                && meter.cost == old(meter).cost + (if usage.cost.Cost? then usage.cost.amount else 0.0)
    {
      valid := false;
      if usage.input.BadTokens? { return; }
      if usage.input.Tokens? {
        if meter.tokensIn + usage.input.count > MAX_SAFE_JSON_INTEGER { return; }
        meter := meter.(tokensIn := meter.tokensIn + usage.input.count);
      }
      if usage.output.BadTokens? { return; }
      if usage.output.Tokens? {
        if meter.tokensOut + usage.output.count > MAX_SAFE_JSON_INTEGER { return; }
        meter := meter.(tokensOut := meter.tokensOut + usage.output.count);
      }
      if usage.cost.BadCost? { return; }
      if usage.cost.Cost? {
        if usage.cost.amount < 0.0 { return; }
        meter := meter.(cost := meter.cost + usage.cost.amount);
      }
      valid := true;
    }

    /** `_write_files`, in any order of the entries. A failure may leave some of them written. */
    method WriteFiles(entries: map<string, Option<string>>) returns (r: Written)
      modifies this`workspace
      ensures forall p :: p !in entries ==> (p in workspace <==> p in old(workspace))
      ensures forall p :: p !in entries && p in workspace ==> workspace[p] == old(workspace)[p]
      ensures r.Wrote? ==> Applied(old(workspace), workspace, entries, r.changed)
      ensures r.Wrote? && ConflictFree(old(workspace).Keys) ==> ConflictFree(workspace.Keys)
      ensures r.Invalid? ==> exists p :: p in entries && (entries[p].None? || !Safe(p))
      ensures r.OsError? ==> Collides(workspace, entries.Keys) && workspace.Keys <= old(workspace).Keys + entries.Keys
    {
      var todo := entries.Keys;
      var changed: set<string> := {};
      while todo != {}
        invariant todo <= entries.Keys && changed <= entries.Keys && changed !! todo
        invariant ConflictFree(old(workspace).Keys) ==> ConflictFree(workspace.Keys)
        invariant forall p :: p !in entries || p in todo ==> (p in workspace <==> p in old(workspace))
        invariant forall p :: (p !in entries || p in todo) && p in workspace ==> workspace[p] == old(workspace)[p]
        invariant forall p :: p in entries && p !in todo ==>
                    && Safe(p) && entries[p].Some? && p in workspace
                    && workspace[p] == Overwritten(old(workspace), p, entries[p].value)
                    && (p in changed <==> Differs(old(workspace), p, entries[p].value))
        decreases todo
      {
        var relative :| relative in todo;
        todo := todo - {relative};
        if entries[relative].None? || !Safe(relative) { return Invalid; }
        var content := entries[relative].value;
        if Differs(workspace, relative, content) {
          if exists q :: q in workspace && Conflict(relative, q) { return OsError; }
          AddConflictFree(workspace.Keys, relative);
          workspace := workspace[relative := content];
          changed := changed + {relative};
        }
      }
      r := Wrote(changed);
    }

    /** One criterion on its fresh copy of the snapshot. */
    method RunCriterion(s: Snapshot, i: nat, ghost start: nat) returns (here: Option<seq<Finding>>)
      requires i < |env.criteria| && tick == start + i
      modifies this`tick
      ensures here == ReportOf(env, start, s, i) && tick == old(tick) + 1
    {
      var run := env.sandbox(tick, env.criteria[i], s);
      tick := tick + 1;
      here := CriterionReport(env, env.criteria[i], s, run);
    }

    /** `_verify_snapshot`. */
    method VerifySnapshot(s: Snapshot) returns (r: Verified)
      modifies this`tick
      ensures r == match Report(env, old(tick), s, |env.criteria|) case Some(fs) => Found(fs)
              case None => ContractInvalid
      ensures r.Found? ==> tick == old(tick) + |env.criteria|
    {
      var findings: seq<Finding> := [];
      ghost var start := tick;
      for i := 0 to |env.criteria|
        invariant tick == start + i
        invariant Report(env, start, s, i) == Some(findings)
      {
        var here := RunCriterion(s, i, start);
        ReportStep(env, start, s, i);
        if here.None? {
          ReportStaysInvalid(env, start, s, i + 1, |env.criteria|);
          return ContractInvalid;
        }
        findings := findings + here.value;
      }
      r := Found(findings);
    }

    /** `_security_findings`, reduced to the blocking ones. */
    method BlockingFindings(s: Snapshot) returns (blocking: seq<Finding>)
      ensures blocking == [] <==> Secure(env, s)
      ensures forall f :: f in blocking <==> exists p :: p in s && BlockingIn(env, p, s[p], f)
    {
      var todo := s.Keys;
      blocking := [];
      while todo != {}
        invariant todo <= s.Keys
        invariant blocking == [] <==>
                    forall p :: p in s && p !in todo ==> FileSecure(env, p, ReadText(s[p]))
        invariant forall f :: f in blocking <==> exists p :: p in s && p !in todo && BlockingIn(env, p, s[p], f)
        decreases todo
      {
        var p :| p in todo;
        todo := todo - {p};
        var content := ReadText(s[p]);
        if env.credential(content) { blocking := blocking + [Finding(CriticalCredential, p, {p})]; }
        if IsPython(p) && env.highRisk(content) { blocking := blocking + [Finding(HighDynamicExecution, p, {p})]; }
      }
    }

    /** Put a criterion's test, if it is a human one, in place, checked against its compiled digest. */
    method PlaceTest(i: nat) returns (ok: bool)
      requires i < |env.criteria| && TestsIn(env, workspace, i)
      modifies this`workspace
      ensures ok ==> TestsIn(env, workspace, i + 1)
      ensures !ok ==> !TestsPlaceable(env)
    {
      var c := env.criteria[i];
      assert c in env.criteria;
      if !c.HumanTest? {
        NoTestHere(env, workspace, i);
        return true;
      }
      if c.path !in env.repository || env.repository[c.path] != c.source { return false; }
      var w := WriteFiles(map[c.path := Some(ReadText(c.source))]);
      ok := w.Wrote?;
      PathsStep(env, i);
      if ok {
        TestOverlaid(env, PathsUpTo(env, i), c, workspace, w.changed);
      } else if w.OsError? {
        PlacingCollides(env, i, workspace);
      }
    }

    /** Put the approved human tests in place. */
    method PlaceHumanTests() returns (ok: bool)
      requires workspace == Overlay(env, {}) && ConflictFree(workspace.Keys)
      modifies this`workspace
      ensures ok <==> TestsPlaceable(env)
      ensures ok ==> workspace == Overlay(env, HumanPaths(env))
    {
      assert PathsUpTo(env, 0) == {};
      for i := 0 to |env.criteria|
        invariant TestsIn(env, workspace, i)
      {
        ok := PlaceTest(i);
        if !ok { return; }
      }
      AllPlaced(env, workspace);
      ok := true;
    }

    /** The building half of an attempt: ask the coder, refuse what it may not do, write the rest. */
    method Build(attempt: int, findings: seq<Finding>, protected: set<string>) returns (r: Built)
      modifies this`meter, this`workspace
      ensures meter.AfterCall(old(meter), env.budget) && Unchanged(protected, old(workspace), workspace)
      ensures r.Stuck? ==>
                && StuckFor(env, old(meter), Coding(View(old(workspace)), findings), protected, r.cause)
                && r.attempts ==
                   if r.cause in {CoderResponseInvalid, CoderModifiedEvidence} then attempt else attempt - 1
      ensures r.BuildCrashed? ==> Lost(env, old(meter), Coding(View(old(workspace)), findings), workspace)
      ensures r.Changed? ==>
                var reply := env.provider(old(meter).calls, Coding(View(old(workspace)), findings));
                && reply.Responds? && reply.response.files.Files? && reply.response.files.entries.Keys !! protected
                && Applied(old(workspace), workspace, reply.response.files.entries, r.changed)
    {
      var reply := Invoke(Coding(View(workspace), findings));
      if reply.Crashed? { return BuildCrashed; }
      if reply.Denied? { return Stuck(reply.cause, attempt - 1); }
      var files := reply.response.files;
      if !files.Files? || exists p :: p in files.entries && !Safe(p) { return Stuck(CoderResponseInvalid, attempt); }
      if exists p :: p in protected && p in files.entries { return Stuck(CoderModifiedEvidence, attempt); }
      var w := WriteFiles(files.entries);
      r := match w
           case Wrote(changed) => Changed(changed)
           case Invalid => Stuck(CoderResponseInvalid, attempt)
           case OsError => BuildCrashed;
    }

    method Append(e: Event)
      modifies this`ledger
      ensures ledger == old(ledger) + [e]
      ensures PhaseOf(env, ledger) == Step(env, PhaseOf(env, old(ledger)), e)
    {
      PhaseAfter(env, ledger, e);
      ledger := ledger + [e];
    }

    /** The last sandbox runs made were one per criterion, from `sealTick` on. */
    ghost predicate Sealable()
      reads this
    {
      sealTick + |env.criteria| == tick
    }

    /** Quality, then every criterion, on one snapshot. */
    method CheckCandidate(attempt: int) returns (findings: seq<Finding>)
      requires PhaseOf(env, ledger) == Verifying(attempt)
      modifies this`ledger, this`tick, this`sealTick
      ensures PhaseOf(env, ledger) == Verifying(attempt)
      ensures findings == Verdict(env, old(tick), workspace)
      ensures findings == [] ==> sealTick == old(tick) && Sealable()
    {
      if env.enforceQuality {
        Append(QualityChecked(attempt));
        findings := QualityFindings(env, workspace);
        if findings != [] { return; }
      }
      sealTick := tick;
      var v := VerifySnapshot(workspace);
      findings := if v.ContractInvalid? then [Finding(CandidateExecutionFailed, "candidate", ActionFiles(env))]
        else v.findings;
    }

    method Verify(attempt: int, changed: set<string>) returns (findings: seq<Finding>)
      requires MayJudge(attempt, changed)
      modifies this`ledger, this`tick, this`sealTick
      ensures findings == Verdict(env, old(tick), workspace)
      ensures findings != [] ==> PhaseOf(env, ledger) == Ready(attempt + 1, findings)
      ensures findings == [] ==> PhaseOf(env, ledger) == Verifying(attempt) && sealTick == old(tick) && Sealable()
    {
      Append(VerificationStarted(attempt, changed));
      findings := CheckCandidate(attempt);
      if findings != [] { Append(VerificationFailed(attempt, findings)); }
    }

    /** Security first, then verification, all on the same snapshot. Nothing is found exactly when the
        candidate is clean in the sandbox runs that come next, and those are the runs made. */
    method Gate(attempt: int, changed: set<string>) returns (findings: seq<Finding>)
      requires MayJudge(attempt, changed)
      modifies this`ledger, this`tick, this`sealTick
      ensures findings == [] <==> Clean(env, old(tick), workspace)
      ensures Judged(env, old(tick), workspace, findings)
      ensures findings != [] ==> PhaseOf(env, ledger) == Ready(attempt + 1, findings)
      ensures findings == [] ==>
                && PhaseOf(env, ledger) == Verifying(attempt) && sealTick == old(tick) && Sealable()
                && Clean(env, sealTick, workspace)
    {
      findings := BlockingFindings(workspace);
      if findings != [] {
        Append(SecurityFailed(attempt, findings));
      } else {
        findings := Verify(attempt, changed);
        CleanVerdict(env, old(tick), workspace);
      }
    }

    /** The coder has just finished this attempt, and its changes may be judged. */
    ghost predicate MayJudge(attempt: int, changed: set<string>)
      reads this
    {
      && PhaseOf(env, ledger).Coded?
      && PhaseOf(env, ledger).attempt == attempt && PhaseOf(env, ledger).changed == changed
      && (attempt == 1 || Relevant(env, PhaseOf(env, ledger).findings, changed))
    }

    /** The advisory review and the seal; the review can fail but not block. */
    method Seal(attempt: int) returns (ok: bool)
      requires PhaseOf(env, ledger) == Verifying(attempt)
      modifies this`meter, this`ledger
      ensures meter.AfterCall(old(meter), env.budget)
      ensures ok ==> ledger == old(ledger) + [ReleaseReady(workspace)] && PhaseOf(env, ledger) == Done
      ensures !ok ==> CrashedFor(env, old(meter), Review(workspace))
    {
      var reply := Invoke(Review(workspace));
      ok := !reply.Crashed?;
      if ok { Append(ReleaseReady(workspace)); }
    }

    /** The judging half of an attempt: only an empty list of findings seals the candidate. */
    method Judge(attempt: int, changed: set<string>) returns (r: Turn)
      requires MayJudge(attempt, changed) && Unstopped(env, polls)
      modifies this`meter, this`ledger, this`tick, this`sealTick
      ensures meter.AfterCall(old(meter), env.budget)
      ensures r.Again? <==> !Clean(env, old(tick), workspace)
      ensures r.Again? ==>
                && PhaseOf(env, ledger) == Ready(attempt + 1, r.findings) && meter == old(meter)
                && Judged(env, old(tick), workspace, r.findings)
      ensures r.TurnCrashed? ==> Lost(env, old(meter), Review(workspace), workspace)
      ensures r.End? ==> r.state.RELEASE_READY? && Closed(r)
    {
      var findings := Gate(attempt, changed);
      if findings != [] { return Again(findings); }
      ghost var gated := ledger;
      var ok := Seal(attempt);
      PhaseCounts(env, gated);
      CountsStep(env, gated, ReleaseReady(workspace));
      r := if ok then End(RELEASE_READY, Pass, attempt) else TurnCrashed;
    }

    /** The ledger is closed by the event the turn names, the attempts are those it counts, the stop flag was
        read as the state says, and a released candidate is clean. */
    ghost predicate Closed(r: Turn)
      requires r.End?
      reads this
    {
      && PhaseOf(env, ledger) == Done && |ledger| > 0 && Announces(ledger[|ledger| - 1], r.state, r.cause)
      && r.attempts == AttemptsReported(env, ledger, r.cause) && Looked(env, polls, r.state)
      && (r.cause.AttemptBudgetExhausted? ==> Failures(ledger) == Max(0, env.budget.maxAttempts))
      && (r.state.RELEASE_READY? ==>
         ledger[|ledger| - 1] == ReleaseReady(workspace) && Sealable() && Clean(env, sealTick, workspace))
    }

    /** A halt or a stop: the terminal event and the returned state in one. */
    method Close(state: RunState, cause: Cause, attempts: int) returns (r: Turn)
      requires !state.RELEASE_READY? && (state.STOPPED? <==> cause.StopRequested?) && !cause.Pass?
      requires Step(env, PhaseOf(env, ledger), if state.HALTED? then Halted(cause) else Stopped) == Done
      requires attempts == AttemptsReported(env, ledger, cause) && Looked(env, polls, state)
      modifies this`ledger
      ensures r == End(state, cause, attempts) && Closed(r)
    {
      PhaseCounts(env, ledger);
      CountsStep(env, ledger, if state.HALTED? then Halted(cause) else Stopped);
      Append(if state.HALTED? then Halted(cause) else Stopped);
      r := End(state, cause, attempts);
    }

    /** The coding half of an attempt: it halts, or its changes may be judged. `repeated` says that the findings
        are the previous ones, which from attempt 2 on they always are. */
    method Code(attempt: int, findings: seq<Finding>, repeated: bool, protected: set<string>)
      returns (r: Turn, changed: set<string>)
      requires PhaseOf(env, ledger) == Ready(attempt, findings) && Unstopped(env, polls)
      requires 1 <= attempt <= env.budget.maxAttempts && (repeated <==> attempt > 1)
      modifies this`workspace, this`ledger, this`meter
      ensures meter.AfterCall(old(meter), env.budget) && Unchanged(protected, old(workspace), workspace)
      ensures r.Again? ==> MayJudge(attempt, changed)
      ensures r.TurnCrashed? ==> SomethingLost(env, workspace)
      ensures r.End? ==> Closed(r) && r.state.HALTED?
      ensures r.End? && !Protocol(r.cause) ==>
                StuckFor(env, old(meter), Coding(View(old(workspace)), findings), protected, r.cause)
    {
      changed := {};
      var built := Build(attempt, findings, protected);
      if built.BuildCrashed? { return TurnCrashed, changed; }
      if built.Stuck? {
        PhaseCounts(env, ledger);
        r := Close(HALTED, built.cause, built.attempts);
        return;
      }
      changed := built.changed;
      r := Complete(attempt, findings, repeated, changed);
    }

    /** The coder has finished: halt if the findings are repeated and the changes have no bearing on them. */
    method Complete(attempt: int, findings: seq<Finding>, repeated: bool, changed: set<string>) returns (r: Turn)
      requires PhaseOf(env, ledger) == Ready(attempt, findings) && Unstopped(env, polls)
      requires 1 <= attempt <= env.budget.maxAttempts && (repeated <==> attempt > 1)
      modifies this`ledger
      ensures r.Again? ==> MayJudge(attempt, changed)
      ensures r.Again? <==> !repeated || Relevant(env, findings, changed)
      ensures r.Again? || (r == End(HALTED, RepeatFindingWithoutRelevantChange, attempt) && Closed(r))
    {
      Append(CoderCompleted(attempt, changed));
      r := Again(findings);
      if repeated && !Relevant(env, findings, changed) {
        PhaseCounts(env, ledger);
        r := Close(HALTED, RepeatFindingWithoutRelevantChange, attempt);
      }
    }

    /** One turn of the attempt loop. */
    method Attempt(attempt: int, findings: seq<Finding>, repeated: bool, protected: set<string>) returns (r: Turn)
      requires PhaseOf(env, ledger) == Ready(attempt, findings) && Unstopped(env, polls)
      requires 1 <= attempt <= env.budget.maxAttempts && (repeated <==> attempt > 1)
      modifies this`workspace, this`ledger, this`meter, this`tick, this`polls, this`sealTick
      ensures meter.AfterTurn(old(meter), env.budget, r.Again?)
      ensures Unchanged(protected, old(workspace), workspace)
      ensures polls == old(polls) + 1 && (env.stopRequested(old(polls)) <==> r.End? && r.state.STOPPED?)
      ensures r.Again? ==>
                && PhaseOf(env, ledger) == Ready(attempt + 1, r.findings) && Unstopped(env, polls)
                && Judged(env, old(tick), workspace, r.findings) && !Clean(env, old(tick), workspace)
      ensures r.TurnCrashed? ==> SomethingLost(env, workspace)
      ensures r.End? ==> Closed(r)
      ensures r.End? && !Protocol(r.cause) ==>
                StuckFor(env, old(meter), Coding(View(old(workspace)), findings), protected, r.cause)
    {
      polls := polls + 1;
      if env.stopRequested(polls - 1) {
        PhaseCounts(env, ledger);
        r := Close(STOPPED, StopRequested, attempt - 1);
        return;
      }
      var changed: set<string>;
      r, changed := Code(attempt, findings, repeated, protected);
      if r.Again? { r := Judge(attempt, changed); }
    }

    /** The attempt loop. */
    method Repair(red: seq<Finding>, protected: set<string>) returns (o: Outcome)
      requires meter.Bounded() && meter.calls == 0 && PhaseOf(env, ledger) == Ready(1, red) && Unstopped(env, polls)
      modifies this`workspace, this`ledger, this`meter, this`tick, this`polls, this`sealTick
      ensures meter.Bounded()
      ensures meter.calls <= Max(0, env.budget.maxModelCalls) && meter.calls <= Max(0, env.budget.maxAttempts) + 1
      ensures Unchanged(protected, old(workspace), workspace)
      ensures o.Returned? ==> Ended(o) && (!Protocol(o.cause) ==> SomethingStuck(env, protected, o.cause))
      ensures o.Raised? ==> SomethingLost(env, workspace)
    {
      var findings, previous: Option<seq<Finding>> := red, None;
      var attempt := 1;
      var turn := Again(red);
      while attempt <= env.budget.maxAttempts && turn.Again?
        invariant attempt == 1 || 1 < attempt <= env.budget.maxAttempts + 1
        invariant meter.Bounded() && meter.calls <= Max(0, env.budget.maxModelCalls)
        invariant meter.calls <= attempt && (turn.Again? ==> meter.calls < attempt)
        invariant turn.Again? ==> PhaseOf(env, ledger) == Ready(attempt, findings) && Unstopped(env, polls)
        invariant turn.Again? ==> previous == if attempt == 1 then None else Some(findings)
        invariant turn.End? ==> Closed(turn) && (!Protocol(turn.cause) ==> SomethingStuck(env, protected, turn.cause))
        invariant turn.TurnCrashed? ==> SomethingLost(env, workspace)
        invariant Unchanged(protected, old(workspace), workspace)
        decreases env.budget.maxAttempts - attempt
      {
        turn := Attempt(attempt, findings, previous == Some(findings), protected);
        if turn.Again? {
          findings := turn.findings;
          previous := Some(findings);
        }
        attempt := attempt + 1;
      }
      match turn {
        case TurnCrashed => o := Raised;
        case End(state, cause, attempts) => o := Returned(state, cause, attempts, meter.calls);
        case Again(_) =>
          PhaseCounts(env, ledger);
          turn := Close(HALTED, AttemptBudgetExhausted, env.budget.maxAttempts);
          o := Returned(HALTED, AttemptBudgetExhausted, env.budget.maxAttempts, meter.calls);
      }
    }

    /** The ledger is closed by the event the outcome names, and a released candidate is clean. */
    ghost predicate Ended(o: Outcome)
      reads this
    {
      o.Returned? && Closed(End(o.state, o.cause, o.attempts)) && o.modelCalls == meter.calls
    }

    /** Write the template, then the approved human tests over it. */
    method PlaceFiles() returns (ok: bool)
      requires workspace == map[]
      modifies this`workspace
      ensures ok <==> Placeable(env)
      ensures ok ==> workspace == Base(env)
    {
      var entries := map p | p in env.template.files :: Some(env.template.files[p]);
      var w := WriteFiles(entries);
      ok := w.Wrote?;
      if ok {
        assert workspace == Overlay(env, {});
        ok := PlaceHumanTests();
      } else {
        TemplateRefused(env, workspace, w);
      }
    }

    /** The baseline must fail every non-template criterion, by assertion. */
    method Baseline() returns (red: Option<seq<Finding>>)
      requires PhaseOf(env, ledger) == Validated
      modifies this`ledger, this`tick
      ensures red.Some? <==> MeaningfulBaseline(env, old(tick), workspace)
      ensures red.Some? ==>
                PhaseOf(env, ledger) == Ready(1, red.value) && RedBaseline(env, old(tick), workspace, red.value)
    {
      var v := VerifySnapshot(workspace);
      if v.ContractInvalid? || !MeaningfullyRed(env, v.findings) { return None; }
      assert RedBaseline(env, old(tick), workspace, v.findings);
      Append(MeaningfulRed(v.findings));
      red := Some(v.findings);
    }

    /** The baseline is taken on the files in place. */
    method TakeBaseline() returns (red: Option<seq<Finding>>, protected: set<string>)
      requires PhaseOf(env, ledger) == Validated && HoldsTests(env, workspace)
      modifies this`ledger, this`tick, this`baseline, this`baselineTick, this`baselineFindings, this`guarded
      ensures red.Some? <==> MeaningfulBaseline(env, old(tick), workspace)
      ensures red.Some? ==> PhaseOf(env, ledger) == Ready(1, red.value)
      ensures red.Some? ==> baseline == workspace && guarded == protected
                            && Prepared(env, guarded, baseline, baselineTick, baselineFindings)
    {
      protected := ProtectTests(env);
      baseline, baselineTick, guarded := workspace, tick, protected;
      red := Baseline();
      if red.Some? { baselineFindings := red.value; }
    }

    /** Everything before attempt 1. */
    method Prepare() returns (red: Option<seq<Finding>>, protected: set<string>)
      requires PhaseOf(env, ledger) == Validated && workspace == map[]
      modifies this`workspace, this`ledger, this`tick, this`baseline, this`baselineTick, this`baselineFindings,
               this`guarded
      ensures red.Some? <==> Preparable(env, old(tick))
      ensures red.Some? ==> PhaseOf(env, ledger) == Ready(1, red.value)
      ensures red.Some? ==> baseline == workspace && guarded == protected
                            && Prepared(env, guarded, baseline, baselineTick, baselineFindings)
    {
      red, protected := None, {};
      var ok := PlaceFiles();
      if ok {
        BaseHoldsTests(env);
        red, protected := TakeBaseline();
      }
    }

    /** Open the ledger and take the first look at the stop flag. */
    method Open() returns (stopped: bool)
      modifies this`ledger, this`polls
      ensures stopped == env.stopRequested(0)
      ensures !stopped ==> PhaseOf(env, ledger) == Validated && Unstopped(env, polls)
      ensures stopped ==> Ended(Returned(STOPPED, StopRequested, 0, meter.calls))
    {
      ledger := [];
      Append(ContractValidated);
      stopped := env.stopRequested(0);
      polls := 1;
      PhaseCounts(env, ledger);
      if stopped { var turn := Close(STOPPED, StopRequested, 0); }
    }

    /** The run from its validated contract on. */
    method Work() returns (o: Outcome)
      requires meter.Bounded() && meter.calls == 0 && PhaseOf(env, ledger) == Validated && workspace == map[]
      requires Unstopped(env, polls)
      modifies this
      ensures meter.Bounded()
      ensures meter.calls <= Max(0, env.budget.maxModelCalls) && meter.calls <= Max(0, env.budget.maxAttempts) + 1
      ensures o.Returned? ==> Ended(o) && Guarded() && (!Protocol(o.cause) ==> SomethingStuck(env, guarded, o.cause))
      ensures o.Raised? ==> !Preparable(env, old(tick)) || SomethingLost(env, workspace)
      ensures !Preparable(env, old(tick)) ==> o.Raised?
    {
      var red, protected := Prepare();
      if red.None? { return Raised; }
      o := Repair(red.value, protected);
    }

    /** The run began from a meaningful red, and what it guards is as it was then. */
    ghost predicate Guarded()
      reads this
    {
      Prepared(env, guarded, baseline, baselineTick, baselineFindings) && Unchanged(guarded, baseline, workspace)
    }

    /** The states of the run, in order. */
    method Drive() returns (o: Outcome)
      requires meter.Bounded() && meter.calls == 0
      modifies this
      ensures meter.Bounded()
      ensures meter.calls <= Max(0, env.budget.maxModelCalls) && meter.calls <= Max(0, env.budget.maxAttempts) + 1
      ensures o.Returned? ==> Ended(o) && (o.state.RELEASE_READY? ==> Guarded())
      ensures o.Returned? && !Protocol(o.cause) ==> Guarded() && SomethingStuck(env, guarded, o.cause)
      ensures Opening(env, old(workspace), old(tick), o) || (o.Raised? && SomethingLost(env, workspace))
    {
      if workspace != map[] { return Raised; }
      var stopped := Open();
      if stopped { return Returned(STOPPED, StopRequested, 0, meter.calls); }
      o := Work();
    }

    /** `run_to_release_ready`, from the compiled plan on. */
    method Execute() returns (o: Outcome)
      requires meter.Bounded() && meter.calls == 0 && DistinctIds(env.criteria)
      modifies this
      ensures meter.Bounded()
      ensures meter.calls <= Max(0, env.budget.maxModelCalls) && meter.calls <= Max(0, env.budget.maxAttempts) + 1
      ensures o.Returned? ==>
                && OneTerminalLast(ledger) && OnlyRelevantRepairs(env, ledger)
                && Announces(ledger[|ledger| - 1], o.state, o.cause) && Looked(env, polls, o.state)
                && o.attempts == AttemptsReported(env, ledger, o.cause) && o.modelCalls == meter.calls
                && (o.cause.AttemptBudgetExhausted? ==> Failures(ledger) == Max(0, env.budget.maxAttempts))
      ensures o.Returned? ==> o.attempts <= Max(0, env.budget.maxAttempts)
      ensures o.Returned? && !Protocol(o.cause) ==> guarded == Protected(env) && SomethingStuck(env, guarded, o.cause)
      ensures Opening(env, old(workspace), old(tick), o) || (o.Raised? && SomethingLost(env, workspace))
      ensures o.Returned? && o.state.RELEASE_READY? ==>
                && ledger[|ledger| - 1] == ReleaseReady(workspace)
                && Releasable(env, sealTick, workspace) && sealTick + |env.criteria| == tick
                && guarded == Protected(env) && Unchanged(guarded, baseline, workspace) && HoldsTests(env, baseline)
                && EachFailedBefore(env, baselineTick, baseline)
    {
      o := Drive();
      if o.Returned? {
        DoneMeansOneTerminal(env, ledger);
        RepairsAreRelevant(env, ledger);
        AttemptsWithinBudget(env, ledger, o.cause);
        if o.state.RELEASE_READY? {
          CleanIsReleasable(env, sealTick, workspace);
          BaselineIff(env, baselineTick, baseline);
        }
      }
    }
  }

  /** The state right before attempt 1. */
  ghost predicate Prepared(env: Environment, guarded: set<string>, s: Snapshot, tick: nat, red: seq<Finding>) {
    guarded == Protected(env) && HoldsTests(env, s) && RedBaseline(env, tick, s, red)
  }

  /** The terminal event and the returned state say the same. */
  predicate Announces(last: Event, state: RunState, cause: Cause) {
    match state
    case RELEASE_READY => last.ReleaseReady? && cause == Pass
    case HALTED => last == Halted(cause)
    case STOPPED => last == Stopped && cause == StopRequested
  }

  // ----- why a run ends -----

  /** The stop flag read false in the first `n` looks. */
  ghost predicate Unstopped(env: Environment, n: nat) { forall i :: 0 <= i < n ==> !env.stopRequested(i) }

  /** A stopped run saw the flag in its last look and not before, any other run never. */
  ghost predicate Looked(env: Environment, polls: nat, state: RunState) {
    if state.STOPPED? then polls > 0 && env.stopRequested(polls - 1) && Unstopped(env, polls - 1)
    else Unstopped(env, polls)
  }

  /** The causes the ledger itself explains. */
  predicate Protocol(cause: Cause) {
    cause in {Pass, StopRequested, AttemptBudgetExhausted, RepeatFindingWithoutRelevantChange}
  }

  ghost predicate UsageOk(m: Meter, usage: Usage) {
    && !usage.input.BadTokens? && !usage.output.BadTokens? && !usage.cost.BadCost?
    && (usage.input.Tokens? ==> m.tokensIn + usage.input.count <= MAX_SAFE_JSON_INTEGER)
    && (usage.output.Tokens? ==> m.tokensOut + usage.output.count <= MAX_SAFE_JSON_INTEGER)
    && (usage.cost.Cost? ==> usage.cost.amount >= 0.0)
  }

  /** Why the engine refuses to use a provider, or its response. */
  ghost predicate DeniedFor(env: Environment, m: Meter, q: Request, cause: Cause) {
    var reply := env.provider(m.calls, q);
    if m.calls >= env.budget.maxModelCalls then cause == ModelCallBudgetExhausted
    else if reply.Raises? then cause == Classify(env, reply.error)
    else
      && reply.Responds?
      && if reply.response.credential then cause == ModelResponseContainsCredential
         else if m.bytes + reply.response.size > env.budget.maxModelOutputBytes then cause == ModelOutputBudgetExhausted
         else if reply.response.echo != Some(q) then cause == ModelResponseUnbound
         else
           && reply.response.usage.Some? && !UsageOk(m, reply.response.usage.value)
           && cause == ModelProviderUsageInvalid
  }

  ghost predicate CrashedFor(env: Environment, m: Meter, q: Request) {
    m.calls < env.budget.maxModelCalls && env.provider(m.calls, q).Crashes?
  }

  /** Why a coding attempt gets stuck: the provider is refused, or its files are. */
  ghost predicate StuckFor(env: Environment, m: Meter, q: Request, protected: set<string>, cause: Cause) {
    || DeniedFor(env, m, q, cause)
    || (&& m.calls < env.budget.maxModelCalls && env.provider(m.calls, q).Responds?
        && FilesRefused(env.provider(m.calls, q).response.files, protected, cause))
  }

  ghost predicate FilesRefused(files: FilesField, protected: set<string>, cause: Cause) {
    if !files.Files? || exists p :: p in files.entries && !Safe(p) then cause == CoderResponseInvalid
    else if exists p :: p in protected && p in files.entries then cause == CoderModifiedEvidence
    else (exists p :: p in files.entries && files.entries[p].None?) && cause == CoderResponseInvalid
  }

  /** Some provider call, or its files, explain the cause. */
  ghost predicate SomethingStuck(env: Environment, protected: set<string>, cause: Cause) {
    exists m: Meter, q: Request :: StuckFor(env, m, q, protected, cause)
  }

  /** The engine itself fails: the provider crashes, or files cannot lie beside the ones there. */
  ghost predicate Lost(env: Environment, m: Meter, q: Request, workspace: Snapshot) {
    || CrashedFor(env, m, q)
    || (&& env.provider(m.calls, q).Responds? && env.provider(m.calls, q).response.files.Files?
        && Collides(workspace, env.provider(m.calls, q).response.files.entries.Keys))
  }

  ghost predicate SomethingLost(env: Environment, workspace: Snapshot) {
    exists m: Meter, q: Request :: Lost(env, m, q, workspace)
  }

  lemma AttemptsWithinBudget(env: Environment, ledger: seq<Event>, cause: Cause)
    requires PhaseOf(env, ledger) == Done && |ledger| > 0
    requires cause.AttemptBudgetExhausted? || ledger[|ledger| - 1].ReleaseReady? || ledger[|ledger| - 1].Stopped?
             || ledger[|ledger| - 1] == Halted(cause)
    requires cause in {CoderResponseInvalid, CoderModifiedEvidence} ==> ledger[|ledger| - 1] == Halted(cause)
    ensures AttemptsReported(env, ledger, cause) <= Max(0, env.budget.maxAttempts)
  {
    var before := ledger[..|ledger| - 1];
    PhaseOfLast(env, ledger);
    PhaseCounts(env, before);
    CountsStep(env, before, ledger[|ledger| - 1]);
    assert ledger == before + [ledger[|ledger| - 1]];
  }

  // ----- what is in place before attempt 1 -----

  ghost predicate ConflictFree(paths: set<string>) { forall p, q :: p in paths && q in paths ==> !Conflict(p, q) }

  lemma AddConflictFree(paths: set<string>, p: string)
    requires forall q :: q in paths ==> !Conflict(p, q)
    ensures ConflictFree(paths) ==> ConflictFree(paths + {p})
  {
  }

  ghost predicate Collides(s: Snapshot, paths: set<string>) { exists p, q :: p in paths && q in s && Conflict(p, q) }

  ghost function HumanPaths(env: Environment): set<string> { set c | c in env.criteria && c.HumanTest? :: c.path }

  ghost function PathsUpTo(env: Environment, n: nat): set<string>
    requires n <= |env.criteria|
  {
    set k | 0 <= k < n && env.criteria[k].HumanTest? :: env.criteria[k].path
  }

  lemma PathsStep(env: Environment, i: nat)
    requires i < |env.criteria|
    ensures PathsUpTo(env, i + 1) ==
            PathsUpTo(env, i) + if env.criteria[i].HumanTest? then {env.criteria[i].path} else {}
    ensures PathsUpTo(env, i) <= HumanPaths(env)
  {
  }

  /** The first `n` criteria's tests are approved and their paths safe. */
  ghost predicate WritableUpTo(env: Environment, n: nat)
    requires n <= |env.criteria|
  {
    forall k :: 0 <= k < n && env.criteria[k].HumanTest? ==> Writable(env, env.criteria[k])
  }

  ghost predicate Writable(env: Environment, c: Criterion)
    requires c.HumanTest?
  {
    Approved(env, c) && Safe(c.path)
  }

  /** The tests among the first `n` criteria lie over the template. */
  ghost predicate TestsIn(env: Environment, s: Snapshot, n: nat)
    requires n <= |env.criteria|
  {
    s == Overlay(env, PathsUpTo(env, n)) && ConflictFree(s.Keys) && WritableUpTo(env, n)
  }

  lemma NoTestHere(env: Environment, s: Snapshot, i: nat)
    requires i < |env.criteria| && !env.criteria[i].HumanTest? && TestsIn(env, s, i)
    ensures TestsIn(env, s, i + 1)
  {
    PathsStep(env, i);
  }

  lemma AllPlaced(env: Environment, s: Snapshot)
    requires TestsIn(env, s, |env.criteria|)
    ensures s == Overlay(env, HumanPaths(env)) && TestsPlaceable(env)
  {
    assert PathsUpTo(env, |env.criteria|) == HumanPaths(env);
    assert s.Keys == env.template.files.Keys + HumanPaths(env);
    forall c | c in env.criteria && c.HumanTest? ensures Writable(env, c) {
      var k :| 0 <= k < |env.criteria| && env.criteria[k] == c;
    }
  }

  /** The test is unchanged since compilation. */
  predicate Approved(env: Environment, c: Criterion)
    requires c.HumanTest?
  {
    c.path in env.repository && env.repository[c.path] == c.source
  }

  ghost predicate TestsApproved(env: Environment) { forall c :: c in env.criteria && c.HumanTest? ==> Approved(env, c) }

  ghost predicate TestsPlaceable(env: Environment) {
    && TestsApproved(env) && (forall c :: c in env.criteria && c.HumanTest? ==> Safe(c.path))
    && ConflictFree(env.template.files.Keys + HumanPaths(env))
  }

  /** The template and the human tests can all be written. */
  ghost predicate Placeable(env: Environment) {
    TestsPlaceable(env) && forall p :: p in env.template.files ==> Safe(p)
  }

  /** The template with the tests at these paths over it, as they read; a template file that reads the same
      stays. */
  ghost function Overlay(env: Environment, paths: set<string>): Snapshot {
    map p | p in env.template.files.Keys + paths :: OverlayAt(env, paths, p)
  }

  ghost function OverlayAt(env: Environment, paths: set<string>, p: string): string {
    if p in paths && p in env.repository && Differs(env.template.files, p, ReadText(env.repository[p]))
    then ReadText(env.repository[p])
    else if p in env.template.files then env.template.files[p] else ""
  }

  /** The workspace before attempt 1. */
  ghost function Base(env: Environment): Snapshot { Overlay(env, HumanPaths(env)) }

  lemma OverlayReads(env: Environment, paths: set<string>, p: string)
    requires p in paths && p in env.repository
    ensures ReadText(OverlayAt(env, paths, p)) == ReadText(env.repository[p])
  {
    ReadTextTwice(env.repository[p]);
  }

  lemma TestOverlaid(env: Environment, paths: set<string>, c: Criterion, after: Snapshot, changed: set<string>)
    requires c.HumanTest? && Approved(env, c)
    requires Applied(Overlay(env, paths), after, map[c.path := Some(ReadText(c.source))], changed)
    ensures after == Overlay(env, paths + {c.path})
  {
    var before, next := Overlay(env, paths), Overlay(env, paths + {c.path});
    if c.path in paths { OverlayReads(env, paths, c.path); }
    assert after.Keys == next.Keys;
    assert forall p :: p in before && p != c.path ==> after[p] == before[p] == next[p];
    assert after[c.path] == Overwritten(before, c.path, ReadText(c.source)) == next[c.path];
  }

  /** A test that cannot lie beside the files in place conflicts with the template or another test. */
  lemma PlacingCollides(env: Environment, i: nat, workspace: Snapshot)
    requires i < |env.criteria| && env.criteria[i].HumanTest? && Collides(workspace, {env.criteria[i].path})
    requires workspace.Keys <= env.template.files.Keys + HumanPaths(env)
    ensures !TestsPlaceable(env)
  {
    assert env.criteria[i] in env.criteria && env.criteria[i].path in HumanPaths(env);
  }

  lemma TemplateRefused(env: Environment, workspace: Snapshot, w: Written)
    requires w.Invalid? ==> exists p :: p in env.template.files && !Safe(p)
    requires w.OsError? ==> Collides(workspace, env.template.files.Keys) && workspace.Keys <= env.template.files.Keys
    requires !w.Wrote?
    ensures !Placeable(env)
  {
  }

  /** Preparation succeeds: everything can be put in place, and the baseline is a meaningful red. */
  ghost predicate Preparable(env: Environment, tick: nat) {
    Placeable(env) && MeaningfulBaseline(env, tick, Base(env))
  }

  lemma BaseHoldsTests(env: Environment)
    requires Placeable(env)
    ensures HoldsTests(env, Base(env))
  {
    forall c | c in env.criteria && c.HumanTest? ensures HoldsTest(env, Base(env), c) {
      assert Approved(env, c) && c.path in HumanPaths(env);
      ReadTextTwice(c.source);
    }
  }

  /** How a run opens: it raises on a workspace in use, stops at once if asked to, raises when it cannot be
      prepared, and otherwise goes on to an outcome. */
  ghost predicate Opening(env: Environment, workspace: Snapshot, tick: nat, o: Outcome) {
    if workspace != map[] then o.Raised?
    else if env.stopRequested(0) then o == Returned(STOPPED, StopRequested, 0, 0)
    else if !Preparable(env, tick) then o.Raised?
    else o.Returned?
  }

  // ----- what the gates find -----

  /** A blocking finding in one file. */
  predicate BlockingIn(env: Environment, p: string, content: string, f: Finding) {
    || (env.credential(ReadText(content)) && f == Finding(CriticalCredential, p, {p}))
    || (IsPython(p) && env.highRisk(ReadText(content)) && f == Finding(HighDynamicExecution, p, {p}))
  }

  /** What verification finds on a snapshot: failed quality checks, or else the report of all criteria. */
  function Verdict(env: Environment, tick: nat, s: Snapshot): seq<Finding> {
    if env.enforceQuality && QualityFindings(env, s) != [] then QualityFindings(env, s)
    else match Report(env, tick, s, |env.criteria|)
      case Some(fs) => fs
      case None => [Finding(CandidateExecutionFailed, "candidate", ActionFiles(env))]
  }

  lemma CleanVerdict(env: Environment, tick: nat, s: Snapshot)
    ensures Secure(env, s) ==> (Verdict(env, tick, s) == [] <==> Clean(env, tick, s))
  {
  }

  /** What an attempt is judged by: the blocking findings of an insecure candidate, else the verdict. */
  ghost predicate Judged(env: Environment, tick: nat, s: Snapshot, findings: seq<Finding>) {
    if Secure(env, s) then findings == Verdict(env, tick, s)
    else forall f :: f in findings <==> exists p :: p in s && BlockingIn(env, p, s[p], f)
  }

  method ProtectTests(env: Environment) returns (protected: set<string>)
    ensures protected == Protected(env)
  {
    var tests := env.template.proofPaths + (set p | p in env.template.files && "tests/" <= p)
                 + set c | c in env.criteria && c.HumanTest? :: c.path;
    var todo := tests;
    protected := tests;
    while todo != {}
      invariant todo <= tests
      invariant forall q ::
                  q in protected <==> q in tests || exists p :: p in tests && p !in todo && q in Initializers(p)
      decreases todo
    {
      var p :| p in todo;
      todo := todo - {p};
      var found := WalkParents(p);
      protected := protected + found;
    }
  }

  /** Exactly these entries were written over `before`, and `changed` are those that differed. */
  ghost predicate Applied(before: Snapshot, after: Snapshot, entries: map<string, Option<string>>,
    changed: set<string>) {
    && (forall p :: p in after <==> p in before || p in entries)
    && (forall p :: p in before && p !in entries ==> after[p] == before[p])
    && (forall p :: p in entries ==>
          Safe(p) && entries[p].Some? && after[p] == Overwritten(before, p, entries[p].value)
          && (p in changed <==> Differs(before, p, entries[p].value)))
    && changed <= entries.Keys
  }

  /** The file is absent or reads back as something else. */
  predicate Differs(s: Snapshot, p: string, content: string) { p !in s || ReadText(s[p]) != content }

  /** What the file holds after the write. */
  function Overwritten(s: Snapshot, p: string, content: string): string {
    if Differs(s, p, content) then content else s[p]
  }

  /** Whatever is written reads back as what was to be written. */
  lemma WrittenReadsBack(before: Snapshot, after: Snapshot, entries: map<string, Option<string>>, changed: set<string>,
    p: string)
    requires Applied(before, after, entries, changed) && p in entries
    ensures ReadText(after[p]) == ReadText(entries[p].value)
  {
    if p in before { ReadTextTwice(before[p]); }
  }

  /** Where no file written over holds a `\r`, the files hold exactly the entries and the listed
      changes are exactly the files that differ. */
  lemma ChangesExact(before: Snapshot, after: Snapshot, entries: map<string, Option<string>>, changed: set<string>)
    requires Applied(before, after, entries, changed)
    requires forall p :: p in entries && p in before ==> '\r' !in before[p]
    ensures forall p :: p in entries ==> after[p] == entries[p].value
    ensures changed == set p | p in entries && (p !in before || before[p] != after[p])
  {
    forall p | p in entries && p in before ensures ReadText(before[p]) == before[p] { ReadTextPlain(before[p]); }
  }

  /** A text with a `\r` written over itself changes nothing and is listed as changed. */
  lemma RepeatedWriteListed(before: Snapshot, after: Snapshot, p: string, changed: set<string>)
    requires p in before && '\r' in before[p] && Applied(before, after, map[p := Some(before[p])], changed)
    ensures after == before && changed == {p}
  {
    ReadTextPlain(before[p]);
  }

  ghost function TestPaths(env: Environment): set<string> {
    env.template.proofPaths + (set p | p in env.template.files && "tests/" <= p)
    + set c | c in env.criteria && c.HumanTest? :: c.path
  }

  /** Every test the engine trusts, and the initialisers of every package on the way to one. */
  ghost function Protected(env: Environment): set<string> {
    TestPaths(env) + set p, q | p in TestPaths(env) && q in Initializers(p) :: q
  }

  ghost predicate HoldsTemplate(env: Environment, s: Snapshot) {
    forall p :: p in env.template.files ==>
      p in s && (s[p] == env.template.files[p] || exists c :: c in env.criteria && c.HumanTest? && c.path == p)
  }

  /** A human test is in place, as it reads: either translated on the way or a template file that reads
      the same. */
  ghost predicate HoldsTest(env: Environment, s: Snapshot, c: Criterion)
    requires c.HumanTest?
  {
    && c.path in s && ReadText(s[c.path]) == ReadText(c.source)
    && (s[c.path] == ReadText(c.source) || (c.path in env.template.files && s[c.path] == env.template.files[c.path]))
  }

  /** The template is in place and each human test reads as the approved source. */
  ghost predicate HoldsTests(env: Environment, s: Snapshot) {
    HoldsTemplate(env, s) && forall c :: c in env.criteria && c.HumanTest? ==> HoldsTest(env, s, c)
  }

  /** What a candidate must show before it is sealed. */
  ghost predicate Releasable(env: Environment, tick: nat, s: Snapshot) {
    AllCriteriaPassed(env, tick, s) && Secure(env, s) && (env.enforceQuality ==> QualityPasses(env, s))
  }

  ghost predicate NothingFound(env: Environment, tick: nat, s: Snapshot) {
    Report(env, tick, s, |env.criteria|) == Some([])
  }

  /** The same in the engine's own terms: no gate found anything. */
  ghost predicate Clean(env: Environment, tick: nat, s: Snapshot) {
    NothingFound(env, tick, s) && Secure(env, s) && (env.enforceQuality ==> QualityFindings(env, s) == [])
  }

  lemma CleanIsReleasable(env: Environment, tick: nat, s: Snapshot)
    ensures Clean(env, tick, s) <==> Releasable(env, tick, s)
  {
    EmptyReport(env, tick, s, |env.criteria|);
    NoQualityFindings(env, s);
  }

  ghost predicate RedBaseline(env: Environment, tick: nat, s: Snapshot, red: seq<Finding>) {
    Report(env, tick, s, |env.criteria|) == Some(red) && MeaningfullyRed(env, red)
  }

  function QualityFindingsOf(checks: seq<(string, bool)>, files: set<string>): seq<Finding> {
    if checks == [] then []
    else (if checks[0].1 then [] else [Finding(GeneratedQualityFailed, "quality:" + checks[0].0, files)])
         + QualityFindingsOf(checks[1..], files)
  }

  function QualityFindings(env: Environment, s: Snapshot): seq<Finding> {
    QualityFindingsOf(env.qualityChecks(s), set p | p in s && EndsWith(p, ".py"))
  }

  lemma {:induction false} NoFailedChecks(checks: seq<(string, bool)>, files: set<string>)
    ensures QualityFindingsOf(checks, files) == [] <==> forall c :: c in checks ==> c.1
  {
    if checks != [] {
      NoFailedChecks(checks[1..], files);
      assert forall c :: c in checks <==> c == checks[0] || c in checks[1..];
    }
  }

  lemma NoQualityFindings(env: Environment, s: Snapshot)
    ensures QualityFindings(env, s) == [] <==> QualityPasses(env, s)
  {
    NoFailedChecks(env.qualityChecks(s), set p | p in s && EndsWith(p, ".py"));
  }

  /** A quality finding is a failed check by its name, at all Python files. */
  lemma {:induction false} QualityFindingsAre(checks: seq<(string, bool)>, files: set<string>, f: Finding)
    ensures f in QualityFindingsOf(checks, files) <==>
            exists name :: (name, false) in checks && f == Finding(GeneratedQualityFailed, "quality:" + name, files)
  {
    if checks != [] {
      QualityFindingsAre(checks[1..], files, f);
      assert checks == [checks[0]] + checks[1..];
      if f in QualityFindingsOf(checks[1..], files) {
        var name :| (name, false) in checks[1..] && f == Finding(GeneratedQualityFailed, "quality:" + name, files);
        assert (name, false) in checks;
      } else if f in QualityFindingsOf(checks, files) {
        assert (checks[0].0, false) in checks;
      }
    }
  }

  lemma QualityFindingsOn(env: Environment, s: Snapshot, f: Finding)
    ensures f in QualityFindings(env, s) <==>
            && f.code.GeneratedQualityFailed? && (forall p :: p in f.files <==> p in s && EndsWith(p, ".py"))
            && exists name :: (name, false) in env.qualityChecks(s) && f.subject == "quality:" + name
  {
    var python := set p | p in s && EndsWith(p, ".py");
    QualityFindingsAre(env.qualityChecks(s), python, f);
    assert (forall p :: p in f.files <==> p in s && EndsWith(p, ".py")) <==> f.files == python;
  }

  function ActionFiles(env: Environment): set<string> {
    set t | t in env.template.actionTargets :: ModuleFile(t)
  }

  /** `t` names a function of a module by the parts of the module's name. */
  predicate Targets(t: string, parts: seq<string>, f: string) {
    && |parts| > 0 && (forall part :: part in parts ==> '.' !in part && ':' !in part)
    && t == Join(parts, '.') + ":" + f
  }

  predicate TargetFile(env: Environment, t: string, parts: seq<string>, f: string, file: string) {
    t in env.template.actionTargets && Targets(t, parts, f) && file == Join(parts, '/') + ".py"
  }

  /** An unusable contract points at the files of the action targets. */
  lemma ActionFilesAre(env: Environment, file: string)
    requires forall t :: t in env.template.actionTargets ==> exists parts, f :: Targets(t, parts, f)
    ensures file in ActionFiles(env) <==> exists t, parts, f :: TargetFile(env, t, parts, f, file)
  {
    if file in ActionFiles(env) {
      var t :| t in env.template.actionTargets && file == ModuleFile(t);
      var parts, f :| Targets(t, parts, f);
      ModuleFileOf(parts, f);
      assert TargetFile(env, t, parts, f, file);
    }
    if t, parts, f :| TargetFile(env, t, parts, f, file) { ModuleFileOf(parts, f); }
  }

  lemma ReportStep(env: Environment, tick: nat, s: Snapshot, i: nat)
    requires i < |env.criteria| && Report(env, tick, s, i).Some?
    ensures Report(env, tick, s, i + 1) ==
            match ReportOf(env, tick, s, i)
            case Some(here) => Some(Report(env, tick, s, i).value + here)
            case None => None
  {
  }

  lemma {:induction false} ReportStaysInvalid(env: Environment, tick: nat, s: Snapshot, m: nat, n: nat)
    requires m <= n <= |env.criteria| && Report(env, tick, s, m).None?
    ensures Report(env, tick, s, n).None?
  {
    if m < n { ReportStaysInvalid(env, tick, s, m, n - 1); }
  }

  // ----- what a release says about the contract -----

  /** A release is a witness that the compiler was right to let its criteria through: each assertion
      list of a released criterion is satisfiable, so none of them is one the compiler refuses. */
  lemma ReleasedCriteriaNotContradictory(env: Environment, tick: nat, s: Snapshot, c: Criterion)
    requires AllCriteriaPassed(env, tick, s) && c in env.criteria && c.GivenWhenThen?
    requires AllWellFormed(c.given) && AllWellFormed(c.outcome)
    ensures !Flagged(env.search, c.given) && !Flagged(env.search, c.outcome)
  {
    var i :| 0 <= i < |env.criteria| && env.criteria[i] == c;
    assert PassedIntact(env, tick, s, i);
    var run := env.sandbox(tick + i, c, s);
    assert AllPass(env.search, c.given, env.template.context);
    assert AllPass(env.search, c.outcome, Obj(map["result" := run.0.value]));
    if Flagged(env.search, c.given) { RefusalIsSound(env.search, c.given); }
    if Flagged(env.search, c.outcome) { RefusalIsSound(env.search, c.outcome); }
  }

  /** Asking the sandbox again gives the same answer. */
  ghost predicate Deterministic(env: Environment) {
    forall t: nat, u: nat, c, s :: env.sandbox(t, c, s) == env.sandbox(u, c, s)
  }

  /** With a deterministic sandbox and something to build, the sealed candidate is not the baseline. */
  lemma SealedDiffersFromBaseline(env: Environment, baselineTick: nat, baseline: Snapshot, sealTick: nat,
    candidate: Snapshot)
    requires Deterministic(env) && EachFailedBefore(env, baselineTick, baseline)
    requires AllCriteriaPassed(env, sealTick, candidate)
    requires exists c :: c in env.criteria && !c.TemplateProof?
    ensures candidate != baseline
  {
    var c :| c in env.criteria && !c.TemplateProof?;
    var i :| 0 <= i < |env.criteria| && env.criteria[i] == c;
    assert PassedIntact(env, sealTick, candidate, i) && !PassedAt(env, baselineTick, baseline, i);
    assert env.sandbox(sealTick + i, c, baseline) == env.sandbox(baselineTick + i, c, baseline);
  }

  /** What stays protected: in the sealed candidate each human test still reads as its approved source,
      and holds it to the byte when neither it nor a template file in its place has a `\r`; and a package
      initialiser above a test that was absent is absent still. */
  lemma ApprovedTestsSurvive(env: Environment, baseline: Snapshot, candidate: Snapshot, c: Criterion, i: nat)
    requires HoldsTests(env, baseline) && Unchanged(Protected(env), baseline, candidate)
    requires c in env.criteria && c.HumanTest?
    ensures c.path in candidate && ReadText(candidate[c.path]) == ReadText(c.source)
    ensures (c.path in env.template.files ==> '\r' !in env.template.files[c.path]) ==>
              (candidate[c.path] == c.source <==> '\r' !in c.source)
    ensures 0 < i < |c.path| && c.path[i] == '/' ==>
              var init := c.path[..i] + "/__init__.py";
              (init in candidate <==> init in baseline) && (init in candidate ==> candidate[init] == baseline[init])
  {
    assert c.path in TestPaths(env) && HoldsTest(env, baseline, c);
    ReadTextPlain(c.source);
    ReadTextPlain(candidate[c.path]);
    if 0 < i < |c.path| && c.path[i] == '/' {
      assert c.path[..i] + "/__init__.py" in Initializers(c.path);
    }
  }

  /** The template's proofs and the files under its tests stay as they were, and as the template has them unless
      a human test lies in their place. */
  lemma TemplateTestsSurvive(env: Environment, baseline: Snapshot, candidate: Snapshot, p: string)
    requires HoldsTests(env, baseline) && Unchanged(Protected(env), baseline, candidate)
    requires p in env.template.proofPaths || (p in env.template.files && "tests/" <= p)
    ensures (p in candidate <==> p in baseline) && (p in candidate ==> candidate[p] == baseline[p])
    ensures p in env.template.files && (forall c :: c in env.criteria && c.HumanTest? ==> c.path != p) ==>
              p in candidate && candidate[p] == env.template.files[p]
  {
    assert p in TestPaths(env);
  }
}
