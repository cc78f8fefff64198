/** The recorded tool agent of `recorded_tool_agent.py`: a transcript acceptor with budgets and a wall
    clock, and the budget pre-check of `barebones_selection.py`. */
module Replay {
  import opened Json

  datatype ToolCall = ToolCall(callId: Option<string>, body: Json)

  datatype Message =
    | SystemPrompt
    | UserPrompt
    | AssistantToolCall(call: ToolCall)
    | ToolMessage(content: Json, callId: string)
    | Assistant(text: string)

  /** A model request; `exact` says that model, schema digest and field set are the admitted ones. */
  datatype ModelRequest = ModelRequest(messages: seq<Message>, exact: bool)

  datatype ModelResponse =
    | CallTool(call: Option<ToolCall>)
    | Stop(content: Option<string>)
    | OtherResponse

  /** A transcript event; `size` is the length of its canonical response. */
  datatype Event =
    | NotMapping
    | Unreadable(sequence: int)
    | UnknownKind(sequence: int, size: nat)
    | ModelEvent(sequence: int, request: ModelRequest, response: ModelResponse, size: nat)
    | ToolEvent(sequence: int, call: ToolCall, result: Json, size: nat)

  datatype Cause =
    | WallTimeBudgetExceeded
    | StepBudgetExceeded
    | TranscriptOrderMismatch
    | TranscriptInvalid
    | ModelAttemptBudgetExceeded
    | ModelRequestMismatch
    | ModelResponseInvalid
    | ToolCallIdReused
    | ModelTerminalInvalid
    | ToolCallSequenceInvalid
    | ToolResultMismatch
    | TranscriptKindInvalid
    | ByteBudgetExceeded
    | TranscriptNotTerminal
    | FixtureInvalid
    | Tool(code: string)

  datatype Budgets = Budgets(maxAttempts: int, maxBytes: int, maxSteps: int, maxToolCalls: int, maxWallTimeMs: int)

  datatype Result<T> = Ok(value: T) | Halt(cause: Cause)

  /** `_dispatch`: the tool's result, or the reason it is denied. */
  datatype Dispatched = Gives(result: Json) | Denies(code: string)

  type Dispatch = ToolCall -> Dispatched

  datatype State = State(
    attempts: nat, calls: nat, bytes: nat, seen: set<string>, pending: Option<ToolCall>, history: seq<Message>,
    output: string)

  const OPENING := [SystemPrompt, UserPrompt]

  const INITIAL := State(0, 0, 0, {}, None, OPENING, "")

  // The four limit comparisons; without budgets nothing is over a limit.
  predicate OverSteps(b: Option<Budgets>, n: int) { b.Some? && n > b.value.maxSteps }
  predicate OverAttempts(b: Option<Budgets>, n: int) { b.Some? && n > b.value.maxAttempts }
  predicate OverCalls(b: Option<Budgets>, n: int) { b.Some? && n > b.value.maxToolCalls }
  predicate OverBytes(b: Option<Budgets>, n: int) { b.Some? && n > b.value.maxBytes }

  // ----- one event -----

  function ModelStep(b: Option<Budgets>, s: State, index: nat, total: nat, request: ModelRequest,
    response: ModelResponse): Result<State> {
    if OverAttempts(b, s.attempts + 1) || s.pending.Some? then Halt(ModelAttemptBudgetExceeded)
    else if !request.exact || request.messages != s.history then Halt(ModelRequestMismatch)
    else match response
      case CallTool(None) => Halt(ModelResponseInvalid)
      case CallTool(Some(call)) =>
        if call.callId.None? || call.callId.value == "" || call.callId.value in s.seen then Halt(ToolCallIdReused)
        else Ok(s.(attempts := s.attempts + 1, seen := s.seen + {call.callId.value}, pending := Some(call),
                   history := s.history + [AssistantToolCall(call)]))
      case Stop(content) =>
        if content.None? || index != total then Halt(ModelTerminalInvalid)
        else Ok(s.(attempts := s.attempts + 1, output := content.value,
                   history := s.history + [Assistant(content.value)]))
      case OtherResponse => Halt(ModelResponseInvalid)
  }

  function ToolStep(b: Option<Budgets>, dispatch: Dispatch, s: State, call: ToolCall, result: Json): Result<State> {
    if OverCalls(b, s.calls + 1) || s.pending != Some(call) then Halt(ToolCallSequenceInvalid)
    else match dispatch(call)
      case Denies(code) => Halt(Tool(code))
      case Gives(actual) =>
        if result != actual then Halt(ToolResultMismatch)
        else if call.callId.None? then Halt(ToolCallSequenceInvalid) // a pending call always has an id
        else Ok(s.(calls := s.calls + 1, pending := None,
                   history := s.history + [ToolMessage(actual, call.callId.value)]))
  }

  /** One turn of the replay loop, the clock aside. */
  function Step(b: Option<Budgets>, dispatch: Dispatch, s: State, index: nat, total: nat, e: Event): Result<State> {
    if OverSteps(b, index) then Halt(StepBudgetExceeded)
    else if e.NotMapping? || e.sequence != index then Halt(TranscriptOrderMismatch)
    else if e.Unreadable? then Halt(TranscriptInvalid)
    else if e.UnknownKind? then Halt(TranscriptKindInvalid)
    else
      var next := if e.ModelEvent? then ModelStep(b, s, index, total, e.request, e.response)
        else ToolStep(b, dispatch, s, e.call, e.result);
      match next
      case Halt(cause) => Halt(cause)
      case Ok(t) => if OverBytes(b, t.bytes + e.size) then Halt(ByteBudgetExceeded)
        else Ok(t.(bytes := t.bytes + e.size))
  }

  /** The first `k` events. */
  function Fold(b: Option<Budgets>, dispatch: Dispatch, events: seq<Event>, k: nat): Result<State>
    requires k <= |events|
  {
    if k == 0 then Ok(INITIAL)
    else match Fold(b, dispatch, events, k - 1)
      case Halt(cause) => Halt(cause)
      case Ok(s) => Step(b, dispatch, s, k, |events|, events[k - 1])
  }

  /** The conditions a cause stands for, whatever else is wrong with the event. */
  predicate Applies(b: Option<Budgets>, dispatch: Dispatch, s: State, index: nat, total: nat, e: Event, cause: Cause) {
    match cause
    case StepBudgetExceeded => OverSteps(b, index)
    case TranscriptOrderMismatch => e.NotMapping? || e.sequence != index
    case TranscriptInvalid => e.Unreadable?
    case TranscriptKindInvalid => e.UnknownKind?
    case ModelAttemptBudgetExceeded => e.ModelEvent? && (OverAttempts(b, s.attempts + 1) || s.pending.Some?)
    case ModelRequestMismatch => e.ModelEvent? && !(e.request.exact && e.request.messages == s.history)
    case ModelResponseInvalid => e.ModelEvent? && (e.response.OtherResponse? || e.response == CallTool(None))
    case ToolCallIdReused =>
      && e.ModelEvent? && e.response.CallTool? && e.response.call.Some?
      && var id := e.response.call.value.callId;
         id.None? || id.value == "" || id.value in s.seen
    case ModelTerminalInvalid => e.ModelEvent? && e.response.Stop? && (e.response.content.None? || index != total)
    case ToolCallSequenceInvalid => e.ToolEvent? && (OverCalls(b, s.calls + 1) || s.pending != Some(e.call))
    case Tool(code) => e.ToolEvent? && dispatch(e.call) == Denies(code)
    case ToolResultMismatch => e.ToolEvent? && dispatch(e.call).Gives? && dispatch(e.call).result != e.result
    case ByteBudgetExceeded => (e.ModelEvent? || e.ToolEvent?) && OverBytes(b, s.bytes + e.size)
    case _ => false
  }

  /** The order in which the causes are looked for. */
  function Rank(cause: Cause): nat {
    match cause
    case StepBudgetExceeded => 1
    case TranscriptOrderMismatch => 2
    case TranscriptInvalid => 3
    case TranscriptKindInvalid => 4
    case ModelAttemptBudgetExceeded => 5
    case ModelRequestMismatch => 6
    case ModelResponseInvalid => 7
    case ToolCallIdReused => 7
    case ModelTerminalInvalid => 7
    case ToolCallSequenceInvalid => 8
    case Tool(_) => 9
    case ToolResultMismatch => 9
    case _ => 10
  }

  predicate NamedCall(s: State) { s.pending.Some? ==> s.pending.value.callId.Some? }

  /** An event is replayed exactly when no cause applies to it, and otherwise the replay halts for the first
      that does. */
  lemma StepDecides(b: Option<Budgets>, dispatch: Dispatch, s: State, index: nat, total: nat, e: Event)
    requires NamedCall(s)
    ensures match Step(b, dispatch, s, index, total, e)
            case Ok(t) => NamedCall(t) && forall c :: !Applies(b, dispatch, s, index, total, e, c)
            case Halt(cause) =>
              && Applies(b, dispatch, s, index, total, e, cause)
              && forall c :: Applies(b, dispatch, s, index, total, e, c) ==> Rank(cause) <= Rank(c)
  {
    var next := Step(b, dispatch, s, index, total, e);
    if next.Halt? {
      assert Applies(b, dispatch, s, index, total, e, next.cause);
      forall c | Applies(b, dispatch, s, index, total, e, c) ensures Rank(next.cause) <= Rank(c) {}
    } else {
      forall c ensures !Applies(b, dispatch, s, index, total, e, c) {}
    }
  }

  /** A pending call always has an id. */
  lemma {:induction false} CallsAreNamed(b: Option<Budgets>, dispatch: Dispatch, events: seq<Event>, k: nat)
    requires k <= |events| && Fold(b, dispatch, events, k).Ok?
    ensures NamedCall(Fold(b, dispatch, events, k).value)
  {
    if k > 0 { CallsAreNamed(b, dispatch, events, k - 1); }
  }

  // ----- the run -----

  datatype Entry = Validated | Replayed(sequence: nat) | ReleaseCandidate | ReleaseReady | Halted(cause: Cause)

  datatype Outcome = Released(output: string, attempts: nat, calls: nat, steps: nat) | Stopped(cause: Cause)

  function Steps(n: nat): seq<Entry> { if n == 0 then [Validated] else Steps(n - 1) + [Replayed(n)] }

  predicate OnTime(late: nat -> bool, looks: nat) { forall i :: 0 <= i < looks ==> !late(i) }

  /** Look `n` at the clock is the first late one. */
  predicate FirstLate(late: nat -> bool, n: nat) { late(n) && OnTime(late, n) }

  /** The replay has gone through the first `k` events and stops right before or at the next: the clock is late
      after event `k` or before event `k + 1`, or that event cannot be replayed. */
  predicate EndsIn(b: Budgets, dispatch: Dispatch, events: seq<Event>, late: nat -> bool, k: nat, cause: Cause) {
    && k <= |events| && Fold(Some(b), dispatch, events, k).Ok?
    && (|| (cause == WallTimeBudgetExceeded && k > 0 && FirstLate(late, 2 * k))
        || (cause == WallTimeBudgetExceeded && k < |events| && FirstLate(late, 2 * k + 1))
        || (&& k < |events| && OnTime(late, 2 * k + 2)
            && Step(Some(b), dispatch, Fold(Some(b), dispatch, events, k).value, k + 1, |events|, events[k])
               == Halt(cause)))
  }

  /** Why a run stops: late from the start, no events, stopped within them, an incomplete transcript, or late
      once they have all been replayed, which may be after the release candidate. */
  predicate Ends(b: Budgets, dispatch: Dispatch, events: seq<Event>, late: nat -> bool, k: nat, candidate: bool,
    cause: Cause) {
    var n := |events|;
    || (k == 0 && !candidate && FirstLate(late, 0) && cause == WallTimeBudgetExceeded)
    || (k == 0 == n && !candidate && OnTime(late, 1) && cause == FixtureInvalid)
    || (n > 0 && !candidate && OnTime(late, 1) && EndsIn(b, dispatch, events, late, k, cause))
    || (&& k == n > 0 && Fold(Some(b), dispatch, events, n).Ok?
        && if !Finished(Fold(Some(b), dispatch, events, n).value)
           then !candidate && OnTime(late, 2 * n + 1) && cause == TranscriptNotTerminal
           else
             && cause == WallTimeBudgetExceeded
             && if candidate then FirstLate(late, 2 * n + 3) || FirstLate(late, 2 * n + 4)
                else FirstLate(late, 2 * n + 1) || FirstLate(late, 2 * n + 2))
  }

  /** The replay loop. `late(i)` is the `i`-th look at the clock finding the deadline passed; the
      first look is taken before the loop. */
  method ReplayEvents(b: Budgets, dispatch: Dispatch, events: seq<Event>, late: nat -> bool)
    returns (r: Result<State>, n: nat)
    requires OnTime(late, 1)
    ensures n <= |events|
    ensures r.Ok? ==> n == |events| && r == Fold(Some(b), dispatch, events, n) && OnTime(late, 2 * n + 1)
    ensures r.Halt? ==> EndsIn(b, dispatch, events, late, n, r.cause)
  {
    n := 0;
    var s := INITIAL;
    while n < |events|
      invariant n <= |events| && Fold(Some(b), dispatch, events, n) == Ok(s) && OnTime(late, 2 * n + 1)
    {
      if late(2 * n + 1) { return Halt(WallTimeBudgetExceeded), n; }
      var next := Step(Some(b), dispatch, s, n + 1, |events|, events[n]);
      FoldStep(Some(b), dispatch, events, n, next);
      if next.Halt? { return next, n; }
      s, n := next.value, n + 1;
      if late(2 * n) { return Halt(WallTimeBudgetExceeded), n; }
    }
    r := Ok(s);
  }

  lemma FoldStep(b: Option<Budgets>, dispatch: Dispatch, events: seq<Event>, n: nat, next: Result<State>)
    requires n < |events| && Fold(b, dispatch, events, n).Ok?
    requires next == Step(b, dispatch, Fold(b, dispatch, events, n).value, n + 1, |events|, events[n])
    ensures Fold(b, dispatch, events, n + 1) == next
  {
  }

  lemma EndsEarly(b: Budgets, dispatch: Dispatch, events: seq<Event>, late: nat -> bool, k: nat, cause: Cause)
    requires EndsIn(b, dispatch, events, late, k, cause)
    ensures Fold(Some(b), dispatch, events, |events|).Halt? || !OnTime(late, 2 * |events| + 1)
  {
    if k < |events| && OnTime(late, 2 * k + 2) {
      FoldStep(Some(b), dispatch, events, k, Halt(cause));
      HaltStays(Some(b), dispatch, events, k + 1, |events|);
    }
  }

  /** Everything up to a complete transcript, or the halt before it. */
  method ReplayAll(b: Budgets, dispatch: Dispatch, events: seq<Event>, late: nat -> bool)
    returns (r: Result<State>, n: nat)
    ensures r.Ok? ==> events != [] && n == |events| && r == Fold(Some(b), dispatch, events, n)
                      && OnTime(late, 2 * n + 1) && Finished(r.value)
    ensures r.Halt? ==> Ends(b, dispatch, events, late, n, false, r.cause)
    ensures r.Halt? ==> events == [] || Fold(Some(b), dispatch, events, |events|).Halt?
                        || !Finished(Fold(Some(b), dispatch, events, |events|).value)
                        || !OnTime(late, 2 * |events| + 1)
  {
    if late(0) { return Halt(WallTimeBudgetExceeded), 0; }
    if events == [] { return Halt(FixtureInvalid), 0; }
    r, n := ReplayEvents(b, dispatch, events, late);
    if r.Halt? {
      EndsEarly(b, dispatch, events, late, n, r.cause);
    } else if !Finished(r.value) {
      r := Halt(TranscriptNotTerminal);
    }
  }

  /** The transcript is complete: nothing pending and a non-empty answer. */
  predicate Finished(s: State) { s.pending.None? && s.output != "" }

  /** `run_recorded_tool_agent` from the validated fixture on. It is released exactly when the whole
      transcript replays, is complete, and no look at the clock is late. */
  method Run(b: Budgets, dispatch: Dispatch, events: seq<Event>, late: nat -> bool)
    returns (o: Outcome, ledger: seq<Entry>)
    ensures o.Released? <==>
              && events != [] && Fold(Some(b), dispatch, events, |events|).Ok?
              && Finished(Fold(Some(b), dispatch, events, |events|).value) && OnTime(late, 2 * |events| + 5)
    ensures o.Released? ==>
              var s := Fold(Some(b), dispatch, events, |events|).value;
              o == Released(s.output, s.attempts, s.calls, |events|)
                && ledger == Steps(|events|) + [ReleaseCandidate, ReleaseReady]
    ensures o.Stopped? ==> |ledger| > 0 && ledger[|ledger| - 1] == Halted(o.cause) && ReleaseReady !in ledger
    ensures o.Stopped? ==> exists k, candidate ::
              && Ends(b, dispatch, events, late, k, candidate, o.cause)
              && ledger == Steps(k) + (if candidate then [ReleaseCandidate] else []) + [Halted(o.cause)]
  {
    ghost var candidate := false;
    var r, replayed := ReplayAll(b, dispatch, events, late);
    ledger := Steps(replayed);
    StepsNotReady(replayed);
    var looks := 2 * |events| + 1;
    if r.Ok? && (late(looks) || late(looks + 1)) { r := Halt(WallTimeBudgetExceeded); }
    if r.Ok? {
      ledger := ledger + [ReleaseCandidate];
      candidate := true;
      if late(looks + 2) || late(looks + 3) { r := Halt(WallTimeBudgetExceeded); }
    }
    assert r.Halt? ==> Ends(b, dispatch, events, late, replayed, candidate, r.cause);
    match r {
      case Halt(cause) =>
        o, ledger := Stopped(cause), ledger + [Halted(cause)];
      case Ok(s) =>
        o, ledger := Released(s.output, s.attempts, s.calls, |events|), ledger + [ReleaseReady];
        assert ledger == Steps(|events|) + [ReleaseCandidate, ReleaseReady];
    }
  }

  lemma {:induction false} StepsNotReady(n: nat)
    ensures ReleaseReady !in Steps(n)
  {
    if n > 0 { StepsNotReady(n - 1); }
  }

  lemma {:induction false} HaltStays(b: Option<Budgets>, dispatch: Dispatch, events: seq<Event>, k: nat, n: nat)
    requires k <= n <= |events| && Fold(b, dispatch, events, k).Halt?
    ensures Fold(b, dispatch, events, n).Halt?
  {
    if k < n { HaltStays(b, dispatch, events, k, n - 1); }
  }

  // ----- the budget pre-check -----

  function ToolEvents(events: seq<Event>, k: nat): nat
    requires k <= |events|
  {
    if k == 0 then 0 else ToolEvents(events, k - 1) + if events[k - 1].ToolEvent? then 1 else 0
  }

  function ModelEvents(events: seq<Event>, k: nat): nat
    requires k <= |events|
  {
    if k == 0 then 0 else ModelEvents(events, k - 1) + if events[k - 1].ModelEvent? then 1 else 0
  }

  function Size(e: Event): nat { if e.NotMapping? || e.Unreadable? then 0 else e.size }

  function ResponseBytes(events: seq<Event>, k: nat): nat
    requires k <= |events|
  {
    if k == 0 then 0 else ResponseBytes(events, k - 1) + Size(events[k - 1])
  }

  predicate BudgetsInRange(b: Budgets) {
    && 1 <= b.maxAttempts <= 8 && 1 <= b.maxBytes <= 1_000_000 && 1 <= b.maxSteps <= 64
    && 0 <= b.maxToolCalls <= 16 && 1 <= b.maxWallTimeMs <= 120_000
  }

  /** `_validate_budgets` for the tool agent, against the counts of its recorded fixture. */
  predicate BudgetsAdmitted(b: Budgets, fixture: seq<Event>) {
    && BudgetsInRange(b)
    && b.maxToolCalls >= ToolEvents(fixture, |fixture|) && b.maxAttempts >= ModelEvents(fixture, |fixture|)
    && b.maxSteps >= |fixture| && b.maxBytes >= ResponseBytes(fixture, |fixture|)
  }

  lemma {:induction false} CountsGrow(events: seq<Event>, k: nat, n: nat)
    requires k <= n <= |events|
    ensures ToolEvents(events, k) <= ToolEvents(events, n) && ModelEvents(events, k) <= ModelEvents(events, n)
    ensures ResponseBytes(events, k) <= ResponseBytes(events, n)
  {
    if k < n { CountsGrow(events, k, n - 1); }
  }

  /** The loop's counters are the transcript's own counts. */
  lemma {:induction false} CountersCount(b: Option<Budgets>, dispatch: Dispatch, events: seq<Event>, k: nat)
    requires k <= |events| && Fold(b, dispatch, events, k).Ok?
    ensures var s := Fold(b, dispatch, events, k).value;
            s.attempts == ModelEvents(events, k) && s.calls == ToolEvents(events, k)
              && s.bytes == ResponseBytes(events, k)
  {
    if k > 0 { CountersCount(b, dispatch, events, k - 1); }
  }

  /** After `k` events the counts are within the limits; a limit is looked at only by what it counts. */
  predicate WithinLimits(b: Budgets, events: seq<Event>, k: nat)
    requires k <= |events|
  {
    && (k > 0 ==> k <= b.maxSteps && ResponseBytes(events, k) <= b.maxBytes)
    && (ModelEvents(events, k) > 0 ==> ModelEvents(events, k) <= b.maxAttempts)
    && (ToolEvents(events, k) > 0 ==> ToolEvents(events, k) <= b.maxToolCalls)
  }

  lemma LimitsAt(b: Budgets, dispatch: Dispatch, events: seq<Event>, k: nat)
    requires 0 < k <= |events| && Fold(None, dispatch, events, k - 1).Ok? && WithinLimits(b, events, k - 1)
    ensures var s := Fold(None, dispatch, events, k - 1).value;
            Step(Some(b), dispatch, s, k, |events|, events[k - 1]).Ok?
            <==> Step(None, dispatch, s, k, |events|, events[k - 1]).Ok? && WithinLimits(b, events, k)
  {
    CountersCount(None, dispatch, events, k - 1);
  }

  lemma LimitsGrow(b: Budgets, events: seq<Event>, k: nat)
    requires 0 < k <= |events| && WithinLimits(b, events, k)
    ensures WithinLimits(b, events, k - 1)
  {
    CountsGrow(events, k - 1, k);
  }

  lemma LimitsUnseen(b: Budgets, dispatch: Dispatch, s: State, index: nat, total: nat, e: Event)
    ensures Step(Some(b), dispatch, s, index, total, e).Ok? ==>
              Step(Some(b), dispatch, s, index, total, e) == Step(None, dispatch, s, index, total, e)
  {
  }

  /** The limits exactly: events are replayed within them when they are replayed without and their counts are
      within. */
  lemma {:induction false} LimitsExact(b: Budgets, dispatch: Dispatch, events: seq<Event>, k: nat)
    requires k <= |events|
    ensures Fold(Some(b), dispatch, events, k).Ok? <==>
            Fold(None, dispatch, events, k).Ok? && WithinLimits(b, events, k)
    ensures Fold(Some(b), dispatch, events, k).Ok? ==>
              Fold(Some(b), dispatch, events, k) == Fold(None, dispatch, events, k)
  {
    if k > 0 {
      LimitsExact(b, dispatch, events, k - 1);
      if WithinLimits(b, events, k) { LimitsGrow(b, events, k); }
      if Fold(None, dispatch, events, k - 1).Ok? && WithinLimits(b, events, k - 1) {
        LimitsAt(b, dispatch, events, k);
        LimitsUnseen(b, dispatch, Fold(None, dispatch, events, k - 1).value, k, |events|, events[k - 1]);
      }
    }
  }

  lemma StepWithinLimits(b: Budgets, dispatch: Dispatch, s: State, index: nat, total: nat, e: Event)
    requires index <= b.maxSteps
    requires e.ModelEvent? ==> s.attempts + 1 <= b.maxAttempts
    requires e.ToolEvent? ==> s.calls + 1 <= b.maxToolCalls
    requires s.bytes + Size(e) <= b.maxBytes
    ensures Step(Some(b), dispatch, s, index, total, e) == Step(None, dispatch, s, index, total, e)
  {
  }

  /** Budgets that pass the pre-check never decide anything: at every step the replay does exactly
      what it would do with all four limit comparisons removed. */
  lemma {:induction false} AdmittedBudgetsNeverBind(b: Budgets, dispatch: Dispatch, events: seq<Event>, k: nat)
    requires BudgetsAdmitted(b, events) && k <= |events|
    ensures Fold(Some(b), dispatch, events, k) == Fold(None, dispatch, events, k)
  {
    if k > 0 {
      AdmittedBudgetsNeverBind(b, dispatch, events, k - 1);
      var before := Fold(None, dispatch, events, k - 1);
      if before.Ok? {
        CountersCount(None, dispatch, events, k - 1);
        CountsGrow(events, k, |events|);
        StepWithinLimits(b, dispatch, before.value, k, |events|, events[k - 1]);
      }
    }
  }

  // ----- the transcripts that are accepted -----

  /** The messages one tool round adds to the history. */
  function RoundMessages(ask: Event, answer: Event): seq<Message> {
    if ask.ModelEvent? && ask.response.CallTool? && ask.response.call.Some? && ask.response.call.value.callId.Some?
      && answer.ToolEvent?
    then [AssistantToolCall(ask.response.call.value), ToolMessage(answer.result, ask.response.call.value.callId.value)]
    else []
  }

  function HistoryAfter(events: seq<Event>, rounds: nat): seq<Message>
    requires 2 * rounds <= |events|
  {
    if rounds == 0 then OPENING
    else HistoryAfter(events, rounds - 1) + RoundMessages(events[2 * rounds - 2], events[2 * rounds - 1])
  }

  /** The ids of the calls made in the first rounds. */
  function IdsAfter(events: seq<Event>, rounds: nat): set<string>
    requires 2 * rounds <= |events|
  {
    if rounds == 0 then {}
    else
      var ask := events[2 * rounds - 2];
      IdsAfter(events, rounds - 1)
      + if ask.ModelEvent? && ask.response.CallTool? && ask.response.call.Some? && ask.response.call.value.callId.Some?
        then {ask.response.call.value.callId.value} else {}
  }

  /** A model event numbered `index` that carries exactly this history. */
  predicate Asks(e: Event, index: nat, history: seq<Message>) {
    e.ModelEvent? && e.sequence == index && e.request.exact && e.request.messages == history
  }

  /** Round `i`: a tool call with a new id, asked with the history so far, and its matching result. */
  predicate Round(dispatch: Dispatch, events: seq<Event>, i: nat)
    requires 2 * i + 1 < |events|
  {
    var ask, answer := events[2 * i], events[2 * i + 1];
    && Asks(ask, 2 * i + 1, HistoryAfter(events, i))
    && ask.response.CallTool? && ask.response.call.Some?
    && var call := ask.response.call.value;
       && call.callId.Some? && call.callId.value != "" && call.callId.value !in IdsAfter(events, i)
       && answer.ToolEvent? && answer.sequence == 2 * i + 2 && answer.call == call
       && dispatch(call) == Gives(answer.result)
  }

  ghost predicate Rounds(dispatch: Dispatch, events: seq<Event>, n: nat)
    requires 2 * n <= |events|
  {
    forall i :: 0 <= i < n ==> Round(dispatch, events, i)
  }

  /** Event `2 n` stops with a non-empty answer, asked with the history of the `n` rounds. */
  predicate Stops(events: seq<Event>, n: nat)
    requires 2 * n < |events|
  {
    var e := events[2 * n];
    Asks(e, 2 * n + 1, HistoryAfter(events, n)) && e.response.Stop? && e.response.content.Some?
      && e.response.content.value != ""
  }

  /** The text of the stop at the end. */
  function Answer(events: seq<Event>): Option<string>
    requires |events| > 0
  {
    var last := events[|events| - 1];
    if last.ModelEvent? && last.response.Stop? then last.response.content else None
  }

  /** Tool rounds, then one stop with a non-empty answer. */
  ghost predicate Transcript(dispatch: Dispatch, events: seq<Event>) {
    |events| % 2 == 1 && Rounds(dispatch, events, |events| / 2) && Stops(events, |events| / 2)
  }

  /** The state between rounds. */
  ghost predicate Between(s: State, events: seq<Event>, n: nat)
    requires 2 * n <= |events|
  {
    && s.pending.None? && s.output == "" && s.attempts == n && s.calls == n
    && s.history == HistoryAfter(events, n) && s.seen == IdsAfter(events, n)
  }

  /** From a state between rounds, the next two events are replayed exactly when they are a round. */
  lemma OneRound(dispatch: Dispatch, events: seq<Event>, s: State, i: nat)
    requires 2 * i + 1 < |events| && Between(s, events, i)
    ensures var t := Step(None, dispatch, s, 2 * i + 1, |events|, events[2 * i]);
            var u := if t.Ok? then Step(None, dispatch, t.value, 2 * i + 2, |events|, events[2 * i + 1]) else t;
            (u.Ok? <==> Round(dispatch, events, i)) && (u.Ok? ==> Between(u.value, events, i + 1))
  {
    var t := Step(None, dispatch, s, 2 * i + 1, |events|, events[2 * i]);
    if t.Ok? {
      var call := events[2 * i].response.call.value;
      assert t.value.pending == Some(call);
      var u := Step(None, dispatch, t.value, 2 * i + 2, |events|, events[2 * i + 1]);
      if u.Ok? {
        assert s.history + [AssistantToolCall(call)] + [ToolMessage(events[2 * i + 1].result, call.callId.value)]
            == s.history + RoundMessages(events[2 * i], events[2 * i + 1]);
      }
    }
  }

  lemma TwoMoreEvents(dispatch: Dispatch, events: seq<Event>, i: nat)
    requires 2 * i + 1 < |events|
    requires Fold(None, dispatch, events, 2 * i).Ok? && Between(Fold(None, dispatch, events, 2 * i).value, events, i)
    ensures Fold(None, dispatch, events, 2 * i + 2).Ok? <==> Round(dispatch, events, i)
    ensures Fold(None, dispatch, events, 2 * i + 2).Ok? ==>
            Between(Fold(None, dispatch, events, 2 * i + 2).value, events, i + 1)
  {
    var s := Fold(None, dispatch, events, 2 * i).value;
    OneRound(dispatch, events, s, i);
    assert Fold(None, dispatch, events, 2 * i + 1) == Step(None, dispatch, s, 2 * i + 1, |events|, events[2 * i]);
  }

  lemma RoundsStep(dispatch: Dispatch, events: seq<Event>, i: nat)
    requires 2 * i + 1 < |events|
    ensures Rounds(dispatch, events, i + 1) <==> Rounds(dispatch, events, i) && Round(dispatch, events, i)
  {
  }

  /** The first `n` rounds replay exactly when they are rounds, and leave a state between rounds. */
  ghost predicate ReplaysRounds(dispatch: Dispatch, events: seq<Event>, n: nat)
    requires 2 * n <= |events|
  {
    var r := Fold(None, dispatch, events, 2 * n);
    (r.Ok? <==> Rounds(dispatch, events, n)) && (r.Ok? ==> Between(r.value, events, n))
  }

  lemma RoundAfterRounds(dispatch: Dispatch, events: seq<Event>, i: nat)
    requires 2 * i + 1 < |events| && Fold(None, dispatch, events, 2 * i).Ok? && ReplaysRounds(dispatch, events, i)
    ensures ReplaysRounds(dispatch, events, i + 1)
  {
    RoundsStep(dispatch, events, i);
    TwoMoreEvents(dispatch, events, i);
  }

  lemma HaltAfterRounds(dispatch: Dispatch, events: seq<Event>, i: nat)
    requires 2 * i + 1 < |events| && Fold(None, dispatch, events, 2 * i).Halt? && ReplaysRounds(dispatch, events, i)
    ensures ReplaysRounds(dispatch, events, i + 1)
  {
    RoundsStep(dispatch, events, i);
    HaltStays(None, dispatch, events, 2 * i, 2 * i + 2);
  }

  lemma NoRounds(dispatch: Dispatch, events: seq<Event>)
    ensures ReplaysRounds(dispatch, events, 0)
  {
  }

  lemma OneMoreRound(dispatch: Dispatch, events: seq<Event>, i: nat)
    requires 2 * i + 1 < |events| && ReplaysRounds(dispatch, events, i)
    ensures ReplaysRounds(dispatch, events, i + 1)
  {
    if Fold(None, dispatch, events, 2 * i).Ok? {
      RoundAfterRounds(dispatch, events, i);
    } else {
      HaltAfterRounds(dispatch, events, i);
    }
  }

  lemma {:induction false} ReplayIsRounds(dispatch: Dispatch, events: seq<Event>, n: nat)
    requires 2 * n <= |events|
    ensures ReplaysRounds(dispatch, events, n)
  {
    if n == 0 {
      NoRounds(dispatch, events);
    } else {
      ReplayIsRounds(dispatch, events, n - 1);
      OneMoreRound(dispatch, events, n - 1);
    }
  }

  lemma LastEvent(dispatch: Dispatch, events: seq<Event>, s: State, n: nat)
    requires |events| == 2 * n + 1 && Between(s, events, n)
    ensures var r := Step(None, dispatch, s, 2 * n + 1, |events|, events[2 * n]);
            && (r.Ok? && Finished(r.value) <==> Stops(events, n))
            && (r.Ok? && Finished(r.value) ==>
                  r.value.attempts == n + 1 && r.value.calls == n && Some(r.value.output) == Answer(events))
  {
  }

  lemma OddTranscript(dispatch: Dispatch, events: seq<Event>, n: nat)
    requires |events| == 2 * n + 1
    ensures var r := Fold(None, dispatch, events, |events|);
            && (r.Ok? && Finished(r.value) <==> Rounds(dispatch, events, n) && Stops(events, n))
            && (r.Ok? && Finished(r.value) ==>
                  r.value.attempts == n + 1 && r.value.calls == n && Some(r.value.output) == Answer(events))
  {
    ReplayIsRounds(dispatch, events, n);
    var before := Fold(None, dispatch, events, 2 * n);
    if before.Ok? { LastEvent(dispatch, events, before.value, n); }
  }

  /** The acceptor, budgets and clock aside: it finishes on exactly the transcripts. */
  lemma AcceptsTranscripts(dispatch: Dispatch, events: seq<Event>)
    ensures var r := Fold(None, dispatch, events, |events|);
            && (r.Ok? && Finished(r.value) <==> Transcript(dispatch, events))
            && (r.Ok? && Finished(r.value) ==>
               r.value.attempts == r.value.calls + 1 && |events| == 2 * r.value.calls + 1
               && Some(r.value.output) == Answer(events))
  {
    var n := |events| / 2;
    if |events| % 2 == 1 { OddTranscript(dispatch, events, n); } else { ReplayIsRounds(dispatch, events, n); }
  }

  /** A release is a transcript within its limits, and its output is the text of the final stop; with budgets
      that pass the pre-check and a clock that never runs late, every transcript is released. */
  lemma ReleasedMeansTranscript(b: Budgets, dispatch: Dispatch, events: seq<Event>)
    ensures var r := Fold(Some(b), dispatch, events, |events|);
            && (r.Ok? && Finished(r.value) <==>
                  Transcript(dispatch, events) && WithinLimits(b, events, |events|))
            && (r.Ok? && Finished(r.value) ==>
                  && Some(r.value.output) == Answer(events)
                  && r.value.attempts == r.value.calls + 1 && |events| == 2 * r.value.calls + 1)
            && (BudgetsAdmitted(b, events) ==> (r.Ok? && Finished(r.value) <==> Transcript(dispatch, events)))
  {
    AcceptsTranscripts(dispatch, events);
    LimitsExact(b, dispatch, events, |events|);
    if BudgetsAdmitted(b, events) { AdmittedBudgetsNeverBind(b, dispatch, events, |events|); }
  }

  /** The pre-check turns away no budgets, of those in range, under which the recorded transcript replays. */
  lemma PreCheckExact(b: Budgets, dispatch: Dispatch, fixture: seq<Event>)
    requires Transcript(dispatch, fixture) && BudgetsInRange(b)
    ensures BudgetsAdmitted(b, fixture) <==> Fold(Some(b), dispatch, fixture, |fixture|).Ok?
  {
    AcceptsTranscripts(dispatch, fixture);
    LimitsExact(b, dispatch, fixture, |fixture|);
  }
}
