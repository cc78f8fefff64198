/** The six-state engine of `barebones.py`: baseline red, bounded repair attempts driven by an
    adversarial model provider, security and verification gates, and the sealed candidate.

    Everything outside the engine is an arbitrary function of how often it was asked: the provider,
    the stop flag, the candidate sandbox, the quality checker and the pattern searches. A digest
    comparison is an equality test on what was digested. */
module Engine {
  import opened Json
  import opened Acceptance

  type Snapshot = map<string, string>

  datatype Code =
    | AssertionFailed
    | CandidateExecutionFailed
    | CandidateMutatedDuringVerification
    | GeneratedQualityFailed
    | CriticalCredential
    | HighDynamicExecution

  datatype Finding = Finding(code: Code, subject: string, files: set<string>)

  datatype Criterion =
    | GivenWhenThen(id: string, given: seq<Assertion>, target: string, outcome: seq<Assertion>)
    | Measure(id: string, target: string, op: Operator, value: Json, minimum: int)
    | HumanTest(id: string, path: string, source: string)
    | TemplateProof(id: string, path: string, source: string)

  /** What one sandboxed execution of a criterion showed. */
  datatype Observation = ActionValue(value: Json) | TestPassed | TestFailed | Unusable

  datatype TokenField = NoTokens | Tokens(count: nat) | BadTokens
  datatype CostField = NoCost | Cost(amount: real) | BadCost
  datatype Usage = Usage(input: TokenField, output: TokenField, cost: CostField)

  datatype FilesField = NotMapping | BadKeys | Files(entries: map<string, Option<string>>)

  datatype Request = Coding(files: Snapshot, findings: seq<Finding>) | Review(candidate: Snapshot)

  /** A decoded response; `echo` is the request whose digest it carries. */
  datatype Response = Response(size: nat, credential: bool, echo: Option<Request>, usage: Option<Usage>,
    files: FilesField)

  /** Why a run halted; `Provider` carries the provider's own error code. */
  datatype Cause =
    | ModelCallBudgetExhausted
    | ModelResponseContainsCredential
    | ModelOutputBudgetExhausted
    | ModelResponseUnbound
    | ModelProviderUsageInvalid
    | ModelProviderFailed
    | Provider(code: string)
    | CoderResponseInvalid
    | CoderModifiedEvidence
    | RepeatFindingWithoutRelevantChange
    | AttemptBudgetExhausted
    | StopRequested
    | Pass

  datatype ProviderError = OsFailure | RuntimeFailure(message: string)
  datatype ProviderReply = Responds(response: Response) | Raises(error: ProviderError) | Crashes

  datatype Budget = Budget(maxAttempts: int, maxModelCalls: int, maxModelOutputBytes: int)

  datatype Template = Template(files: Snapshot, proofPaths: set<string>, actionTargets: set<string>, context: Json)

  datatype Environment = Environment(
    template: Template,
    criteria: seq<Criterion>,
    repository: Snapshot,
    budget: Budget,
    enforceQuality: bool,
    provider: (nat, Request) -> ProviderReply,
    stopRequested: nat -> bool,
    sandbox: (nat, Criterion, Snapshot) -> (Observation, Snapshot),
    qualityChecks: Snapshot -> seq<(string, bool)>,
    search: Search,
    credential: string -> bool,
    highRisk: string -> bool)

  datatype Event =
    | ContractValidated
    | MeaningfulRed(findings: seq<Finding>)
    | CoderCompleted(attempt: int, changed: set<string>)
    | SecurityFailed(attempt: int, findings: seq<Finding>)
    | VerificationStarted(attempt: int, changed: set<string>)
    | QualityChecked(attempt: int)
    | VerificationFailed(attempt: int, findings: seq<Finding>)
    | ReleaseReady(candidate: Snapshot)
    | Halted(cause: Cause)
    | Stopped

  predicate Terminal(e: Event) { e.ReleaseReady? || e.Halted? || e.Stopped? }

  datatype RunState = RELEASE_READY | HALTED | STOPPED
  datatype Outcome = Returned(state: RunState, cause: Cause, attempts: int, modelCalls: nat) | Raised

  const MAX_SAFE_JSON_INTEGER := 0x1F_FFFF_FFFF_FFFF

  // ----- paths -----

  predicate SafeChar(c: char) {
    'A' <= c <= 'Z' || 'a' <= c <= 'z' || '0' <= c <= '9' || c in {'_', '.', '-'}
  }

  /** `_safe_path` accepts the relative path. Segments are never empty, `.` or `..`, so distinct
      safe strings name distinct files of the workspace. */
  predicate Safe(path: string) {
    forall part :: part in Split(path, '/') ==> part !in {"", ".", ".."} && forall c :: c in part ==> SafeChar(c)
  }

  /** The safe paths are names of the admitted characters with slashes between them, none of them `.` or `..`. */
  lemma SafeIff(path: string)
    ensures Safe(path) <==> exists parts: seq<string> ::
                            && |parts| > 0 && path == Join(parts, '/')
                            && forall part :: part in parts ==>
                                 part !in {"", ".", ".."} && forall c :: c in part ==>
                                   || 'A' <= c <= 'Z' || 'a' <= c <= 'z' || '0' <= c <= '9'
                                   || c == '_' || c == '.' || c == '-'
  {
    if Safe(path) { JoinOfSplit(path, '/'); }
    if parts: seq<string> :|
        && |parts| > 0 && path == Join(parts, '/')
        && forall part :: part in parts ==> part !in {"", ".", ".."} && forall c :: c in part ==> SafeChar(c)
    {
      assert forall part :: part in parts ==> '/' !in part;
      SplitOfJoin(parts, '/');
    }
  }

  /** One of the two paths would need the other to be a directory. */
  predicate Conflict(a: string, b: string) { a + "/" <= b || b + "/" <= a }

  predicate EndsWith(s: string, suffix: string) { |suffix| <= |s| && s[|s| - |suffix|..] == suffix }

  /** The directory part of a relative path, empty at the workspace itself. */
  function Parent(path: string): (d: string)
    ensures d == "" || (|d| < |path| && d < path && path[|d|] == '/')
    ensures forall i :: |d| < i < |path| ==> path[i] != '/'
    ensures d == "" ==> forall i :: 0 < i < |path| ==> path[i] != '/'
  {
    if path == "" then ""
    else
      var n := |path| - 1;
      if path[n] == '/' then path[..n] else Parent(path[..n])
  }

  /** Package initialisers on the way from a path up to the workspace. */
  ghost function Initializers(path: string): set<string> {
    set i | 0 < i < |path| && path[i] == '/' :: path[..i] + "/__init__.py"
  }

  /** The parent walk that protects package initialisers. */
  method WalkParents(path: string) returns (found: set<string>)
    ensures found == Initializers(path)
  {
    found := {};
    var parent := Parent(path);
    while parent != ""
      invariant parent != "" ==> parent < path && path[|parent|] == '/'
      invariant found == set i | |parent| < i < |path| && 0 < i && path[i] == '/' :: path[..i] + "/__init__.py"
      decreases |parent|
    {
      var next := Parent(parent);
      ghost var before := found;
      found := found + {parent + "/__init__.py"};
      assert parent == path[..|parent|];
      assert forall i :: |next| < i < |parent| && 0 < i ==> path[i] != '/' by {
        assert forall i :: 0 <= i < |parent| ==> path[i] == parent[i];
      }
      assert next != "" ==> path[|next|] == parent[|next|];
      parent := next;
    }
  }

  // ----- reading text -----

  /** `read_text`: every `\r\n` and every other `\r` of the stored text comes back as `\n`. */
  function ReadText(t: string): string {
    if t == "" then ""
    else if t[0] == '\r' then ['\n'] + ReadText(if |t| > 1 && t[1] == '\n' then t[2..] else t[1..])
    else [t[0]] + ReadText(t[1..])
  }

  lemma {:induction false} ReadTextPlain(t: string)
    ensures '\r' !in ReadText(t)
    ensures '\r' !in t ==> ReadText(t) == t
  {
    if t != "" {
      ReadTextPlain(t[1..]);
      if t[0] == '\r' && |t| > 1 && t[1] == '\n' { ReadTextPlain(t[2..]); }
      assert t == [t[0]] + t[1..];
    }
  }

  lemma ReadTextTwice(t: string)
    ensures ReadText(ReadText(t)) == ReadText(t)
  {
    ReadTextPlain(t);
    ReadTextPlain(ReadText(t));
  }

  /** What a line end reads as, whatever stands before it: `\r\n` ... */
  lemma {:induction false} PairReads(a: string, b: string)
    ensures ReadText(a + ("\r\n" + b)) == ReadText(a) + ("\n" + ReadText(b))
  {
    var end := "\r\n" + b;
    assert end[0] == '\r' && end[1] == '\n' && end[2..] == b;
    if a == "" {
      assert a + end == end;
    } else {
      var n := if a[0] == '\r' && |a| > 1 && a[1] == '\n' then 2 else 1;
      PairReads(a[n..], b);
      assert (a + end)[n..] == a[n..] + end;
    }
  }

  /** ... and `\r` alone. */
  lemma {:induction false} ReturnReads(a: string, b: string)
    requires b != "" ==> b[0] != '\n'
    ensures ReadText(a + ("\r" + b)) == ReadText(a) + ("\n" + ReadText(b))
  {
    var end := "\r" + b;
    assert end[0] == '\r' && end[1..] == b;
    if a == "" {
      assert a + end == end;
    } else {
      var n := if a[0] == '\r' && |a| > 1 && a[1] == '\n' then 2 else 1;
      ReturnReads(a[n..], b);
      assert (a + end)[n..] == a[n..] + end;
    }
  }

  /** Writing `content` over `before` is listed as a change exactly when it is one. */
  predicate ListedRight(before: string, content: string) { ReadText(before) != content <==> before != content }

  /** A file without `\r` is listed right whatever is written; one with it is not, beginning with the
      same content written again. */
  lemma ListedRightIff(before: string)
    ensures (forall content :: ListedRight(before, content)) <==> '\r' !in before
    ensures '\r' in before ==> !ListedRight(before, before) && !ListedRight(before, ReadText(before))
  {
    ReadTextPlain(before);
    assert ListedRight(before, before) ==> ReadText(before) == before;
  }

  const SHOWN_SUFFIXES := {".json", ".md", ".py", ".toml", ".txt", ".yaml", ".yml"}

  /** The file goes into a request to the coder. */
  predicate Shown(p: string) {
    "__pycache__" !in Split(p, '/') && Suffixed(p, SHOWN_SUFFIXES)
  }

  predicate Suffixed(p: string, suffixes: set<string>) {
    exists suffix :: suffix in suffixes && HasSuffix(p, suffix)
  }

  lemma HasSuffixIff(above: string, name: string, suffix: string)
    requires suffix != "" && '/' !in suffix && '/' !in name
    ensures HasSuffix(above + "/" + name, suffix) <==> EndsWith(name, suffix) && |name| > |suffix|
  {
    var p, m := above + "/" + name, |suffix|;
    if |name| >= m {
      assert p[|p| - m..] == name[|name| - m..];
    } else if m <= |p| {
      assert p[|p| - m..][m - |name| - 1] == p[|above|] == '/';
    }
  }

  lemma SuffixedIff(above: string, name: string, suffixes: set<string>)
    requires '/' !in name && forall suffix :: suffix in suffixes ==> suffix != "" && '/' !in suffix
    ensures Suffixed(above + "/" + name, suffixes) <==>
            exists suffix :: suffix in suffixes && EndsWith(name, suffix) && |name| > |suffix|
  {
    forall suffix | suffix in suffixes
      ensures HasSuffix(above + "/" + name, suffix) <==> EndsWith(name, suffix) && |name| > |suffix| {
      HasSuffixIff(above, name, suffix);
    }
  }

  lemma PlainSuffixes()
    ensures forall suffix :: suffix in SHOWN_SUFFIXES ==> suffix != "" && '/' !in suffix
  {
  }

  /** A file is shown when its name has one of the suffixes and more, and is no cache and in none. */
  lemma ShownIff(directories: seq<string>, name: string)
    requires |directories| > 0 && (forall d :: d in directories ==> '/' !in d) && '/' !in name
    ensures Shown(Join(directories, '/') + "/" + name) <==>
            && "__pycache__" !in directories && name != "__pycache__"
            && exists suffix :: suffix in SHOWN_SUFFIXES && EndsWith(name, suffix) && |name| > |suffix|
  {
    var above := Join(directories, '/');
    SplitJoin(above, name, '/');
    SplitOfJoin(directories, '/');
    NoSeparator(name, '/');
    assert Split(above + "/" + name, '/') == directories + [name];
    PlainSuffixes();
    SuffixedIff(above, name, SHOWN_SUFFIXES);
  }

  /** The workspace as the coder is shown it. */
  function View(s: Snapshot): Snapshot { map p | p in s && Shown(p) :: ReadText(s[p]) }

  lemma ViewReads(s: Snapshot, p: string)
    ensures p in View(s) <==> p in s && Shown(p)
    ensures p in View(s) ==> '\r' !in View(s)[p] && ('\r' !in s[p] ==> View(s)[p] == s[p])
  {
    if p in s { ReadTextPlain(s[p]); }
  }

  // ----- what the gates look at -----

  predicate Blocking(f: Finding) { f.code.CriticalCredential? || f.code.HighDynamicExecution? }

  /** No file of the candidate holds credential material or, in Python, dynamic execution. */
  predicate Secure(env: Environment, s: Snapshot) {
    forall p :: p in s ==> FileSecure(env, p, ReadText(s[p]))
  }

  predicate FileSecure(env: Environment, p: string, content: string) {
    !env.credential(content) && !(IsPython(p) && env.highRisk(content))
  }

  /** `path.suffix`: a name that is nothing but a suffix has none. */
  predicate HasSuffix(p: string, suffix: string) {
    EndsWith(p, suffix) && |p| > |suffix| && p[|p| - |suffix| - 1] != '/'
  }

  predicate IsPython(p: string) { HasSuffix(p, ".py") }

  predicate QualityPasses(env: Environment, s: Snapshot) {
    forall c :: c in env.qualityChecks(s) ==> c.1
  }

  /** The criterion's own verdict on an observation. */
  predicate Passed(env: Environment, c: Criterion, s: Snapshot, o: Observation) {
    match c
    case GivenWhenThen(_, given, _, outcome) =>
      AllPass(env.search, given, env.template.context) && o.ActionValue?
      && AllPass(env.search, outcome, Obj(map["result" := o.value]))
    case Measure(_, _, op, value, minimum) =>
      && o.ActionValue? && o.value.Obj? && "sample_size" in o.value.members
      && o.value.members["sample_size"].Num?
      && IsInteger(o.value.members["sample_size"].r) && o.value.members["sample_size"].r >= minimum as real
      && Passes(env.search, Assertion("value", op, value), o.value)
    case HumanTest(_, _, _) => o.TestPassed?
    case TemplateProof(_, path, source) => path in s && s[path] == source && o.TestPassed?
  }

  predicate IsInteger(r: real) { r == r.Floor as real }

  function Failed(c: Criterion, files: set<string>): seq<Finding> { [Finding(AssertionFailed, c.id, files)] }

  function ModuleFile(target: string): string {
    var module_ := Split(target, ':')[0];
    Join(Split(module_, '.'), '/') + ".py"
  }

  /** The dotted module of a `module:function` target names its file. */
  lemma ModuleFileOf(parts: seq<string>, f: string)
    requires |parts| > 0 && forall part :: part in parts ==> '.' !in part && ':' !in part
    ensures ModuleFile(Join(parts, '.') + ":" + f) == Join(parts, '/') + ".py"
  {
    SplitOfJoin(parts, '.');
    JoinWithout(parts, '.', ':');
    NoSeparator(Join(parts, '.'), ':');
    SplitJoin(Join(parts, '.'), f, ':');
  }

  /** `_criterion_findings`; None is a ContractInvalidError. */
  function CriterionFindings(env: Environment, c: Criterion, s: Snapshot, o: Observation): Option<seq<Finding>> {
    match c
    case TemplateProof(_, path, source) =>
      if path !in s || s[path] != source then None
      else if o.TestPassed? then Some([])
      else if o.TestFailed? then Some(Failed(c, {path}))
      else None
    case HumanTest(_, path, _) =>
      if o.TestPassed? then Some([]) else if o.TestFailed? then Some(Failed(c, {path})) else None
    case Measure(_, target, op, value, minimum) =>
      if !o.ActionValue? || !o.value.Obj? || "sample_size" !in o.value.members then None
      else
        var sample := o.value.members["sample_size"];
        if !sample.Num? || !IsInteger(sample.r) then None
        else if sample.r >= minimum as real && Passes(env.search, Assertion("value", op, value), o.value) then Some([])
        else Some(Failed(c, {ModuleFile(target)}))
    case GivenWhenThen(_, given, target, outcome) =>
      if !AllPass(env.search, given, env.template.context) || !o.ActionValue? then None
      else if AllPass(env.search, outcome, Obj(map["result" := o.value])) then Some([])
      else Some(Failed(c, {ModuleFile(target)}))
  }

  /** One turn of `_verify_snapshot`: run the criterion on a fresh copy, then compare the copy. */
  function CriterionReport(env: Environment, c: Criterion, s: Snapshot,
    run: (Observation, Snapshot)): Option<seq<Finding>> {
    var found := match CriterionFindings(env, c, s, run.0)
                 case Some(fs) => Some(fs)
                 case None => if c.HumanTest? then Some([Finding(CandidateExecutionFailed, c.id, {c.path})]) else None;
    if found.None? || run.1 == s then found
    else Some(found.value + [Finding(CandidateMutatedDuringVerification, c.id, Differing(s, run.1))])
  }

  function Differing(a: Snapshot, b: Snapshot): (r: set<string>)
    ensures forall p :: p in r <==> (p in a || p in b) && (p in a && p in b ==> a[p] != b[p])
  {
    (a.Keys + b.Keys) - set p | p in a && p in b && a[p] == b[p]
  }

  /** The findings of criterion `i`, checked in run `tick + i` of the sandbox. */
  function ReportOf(env: Environment, tick: nat, s: Snapshot, i: nat): Option<seq<Finding>>
    requires i < |env.criteria|
  {
    CriterionReport(env, env.criteria[i], s, env.sandbox(tick + i, env.criteria[i], s))
  }

  /** The findings of the first `n` criteria, the sandbox having run `tick` times before. */
  function Report(env: Environment, tick: nat, s: Snapshot, n: nat): Option<seq<Finding>>
    requires n <= |env.criteria|
  {
    if n == 0 then Some([])
    else
      var before := Report(env, tick, s, n - 1);
      var here := ReportOf(env, tick, s, n - 1);
      if before.None? || here.None? then None else Some(before.value + here.value)
  }

  /** Run number `tick + i` of the sandbox passed criterion `i` on a fresh copy and left it intact. */
  predicate PassedIntact(env: Environment, tick: nat, s: Snapshot, i: nat)
    requires i < |env.criteria|
  {
    var run := env.sandbox(tick + i, env.criteria[i], s);
    Passed(env, env.criteria[i], s, run.0) && run.1 == s
  }

  /** From tick `tick` on, every criterion passed on its own fresh copy of `s`. */
  ghost predicate AllCriteriaPassed(env: Environment, tick: nat, s: Snapshot) {
    forall i :: 0 <= i < |env.criteria| ==> PassedIntact(env, tick, s, i)
  }

  lemma EmptyCriterionReport(env: Environment, c: Criterion, s: Snapshot, run: (Observation, Snapshot))
    ensures CriterionReport(env, c, s, run) == Some([]) <==> Passed(env, c, s, run.0) && run.1 == s
  {
  }

  lemma {:induction false} EmptyReport(env: Environment, tick: nat, s: Snapshot, n: nat)
    requires n <= |env.criteria|
    ensures Report(env, tick, s, n) == Some([]) <==> forall i :: 0 <= i < n ==> PassedIntact(env, tick, s, i)
  {
    if n > 0 {
      EmptyReport(env, tick, s, n - 1);
      EmptyCriterionReport(env, env.criteria[n - 1], s, env.sandbox(tick + n - 1, env.criteria[n - 1], s));
      var before := Report(env, tick, s, n - 1);
      var here := ReportOf(env, tick, s, n - 1);
      assert PassedIntact(env, tick, s, n - 1) <==> here == Some([]);
      if before.Some? && here.Some? {
        assert |before.value + here.value| == |before.value| + |here.value|;
      }
    }
  }

  predicate DistinctIds(criteria: seq<Criterion>) {
    forall i, j :: 0 <= i < j < |criteria| ==> criteria[i].id != criteria[j].id
  }

  lemma ReportOfSubject(env: Environment, tick: nat, s: Snapshot, i: nat, f: Finding)
    requires i < |env.criteria| && ReportOf(env, tick, s, i).Some? && f in ReportOf(env, tick, s, i).value
    ensures env.criteria[i].id == f.subject
  {
  }

  /** A finding of a report names the criterion that produced it. */
  lemma {:induction false} ReportSubject(env: Environment, tick: nat, s: Snapshot, n: nat, f: Finding) returns (i: nat)
    requires n <= |env.criteria| && Report(env, tick, s, n).Some? && f in Report(env, tick, s, n).value
    ensures i < n && env.criteria[i].id == f.subject
    ensures ReportOf(env, tick, s, i).Some?
    ensures f in ReportOf(env, tick, s, i).value
  {
    if f in ReportOf(env, tick, s, n - 1).value {
      i := n - 1;
      ReportOfSubject(env, tick, s, i, f);
    } else {
      i := ReportSubject(env, tick, s, n - 1, f);
    }
  }

  // ----- the baseline -----

  /** `baseline` is a meaningful red: only assertion failures, of exactly the non-template criteria. */
  predicate MeaningfullyRed(env: Environment, baseline: seq<Finding>) {
    && (forall f :: f in baseline ==> f.code == AssertionFailed)
    && Subjects(baseline) == ToBuild(env)
  }

  function Subjects(fs: seq<Finding>): set<string> { set f | f in fs :: f.subject }

  function ToBuild(env: Environment): set<string> { set c | c in env.criteria && !c.TemplateProof? :: c.id }

  predicate PassedAt(env: Environment, tick: nat, s: Snapshot, i: nat)
    requires i < |env.criteria|
  {
    Passed(env, env.criteria[i], s, env.sandbox(tick + i, env.criteria[i], s).0)
  }

  ghost predicate EachFailedBefore(env: Environment, tick: nat, s: Snapshot) {
    forall i :: 0 <= i < |env.criteria| && !env.criteria[i].TemplateProof? ==> !PassedAt(env, tick, s, i)
  }

  lemma RedHasFailure(env: Environment, baseline: seq<Finding>, i: nat) returns (f: Finding)
    requires MeaningfullyRed(env, baseline) && i < |env.criteria| && !env.criteria[i].TemplateProof?
    ensures f in baseline && f.subject == env.criteria[i].id && f.code.AssertionFailed?
  {
    assert env.criteria[i] in env.criteria && env.criteria[i].id in ToBuild(env);
    assert env.criteria[i].id in Subjects(baseline);
    f :| f in baseline && f.subject == env.criteria[i].id;
  }

  ghost predicate MeaningfulBaseline(env: Environment, tick: nat, s: Snapshot) {
    var report := Report(env, tick, s, |env.criteria|);
    report.Some? && MeaningfullyRed(env, report.value)
  }

  /** The file a failed criterion points at. */
  function Implicated(c: Criterion): string {
    match c
    case HumanTest(_, path, _) => path
    case TemplateProof(_, path, _) => path
    case Measure(_, target, _, _, _) => ModuleFile(target)
    case GivenWhenThen(_, _, target, _) => ModuleFile(target)
  }

  /** What a run showed says whether the criterion holds; otherwise the contract, or a test, is unusable. */
  predicate Assessable(env: Environment, c: Criterion, s: Snapshot, o: Observation) {
    match c
    case GivenWhenThen(_, given, _, _) => AllPass(env.search, given, env.template.context) && o.ActionValue?
    case Measure(_, _, _, _, _) =>
      && o.ActionValue? && o.value.Obj? && "sample_size" in o.value.members
      && o.value.members["sample_size"].Num? && IsInteger(o.value.members["sample_size"].r)
    case HumanTest(_, _, _) => o.TestPassed? || o.TestFailed?
    case TemplateProof(_, path, source) => path in s && s[path] == source && (o.TestPassed? || o.TestFailed?)
  }

  /** The run left its copy of the baseline intact and told a template proof, which passed, from anything still
      to be built, which failed. */
  predicate RedRun(env: Environment, c: Criterion, s: Snapshot, run: (Observation, Snapshot)) {
    run.1 == s && Assessable(env, c, s, run.0) && (Passed(env, c, s, run.0) <==> c.TemplateProof?)
  }

  predicate RedAt(env: Environment, tick: nat, s: Snapshot, i: nat)
    requires i < |env.criteria|
  {
    RedRun(env, env.criteria[i], s, env.sandbox(tick + i, env.criteria[i], s))
  }

  /** What a meaningful red reports on a criterion. */
  function Expected(c: Criterion): seq<Finding> { if c.TemplateProof? then [] else Failed(c, {Implicated(c)}) }

  predicate OnlyAssertions(fs: seq<Finding>) { forall f :: f in fs ==> f.code == AssertionFailed }

  /** The report of one criterion in terms of what its run showed. */
  lemma CriterionReportSays(env: Environment, c: Criterion, s: Snapshot, run: (Observation, Snapshot))
    ensures var report := CriterionReport(env, c, s, run);
            && (report.None? <==> !Assessable(env, c, s, run.0) && !c.HumanTest?)
            && (report == Some(Failed(c, {Implicated(c)})) <==>
               run.1 == s && Assessable(env, c, s, run.0) && !Passed(env, c, s, run.0))
            && (report == Some(Expected(c)) <==> RedRun(env, c, s, run))
  {
    var report := CriterionReport(env, c, s, run);
    if report.Some? && report.value != [] && run.1 != s {
      assert report.value[|report.value| - 1].code == CandidateMutatedDuringVerification;
    }
  }

  /** Every finding a criterion can report, and when it does. */
  lemma CriterionFindingsAre(env: Environment, c: Criterion, s: Snapshot, run: (Observation, Snapshot), f: Finding)
    requires CriterionReport(env, c, s, run).Some?
    ensures f in CriterionReport(env, c, s, run).value <==>
            || (f == Finding(AssertionFailed, c.id, {Implicated(c)})
                && Assessable(env, c, s, run.0) && !Passed(env, c, s, run.0))
            || (f == Finding(CandidateExecutionFailed, c.id, {Implicated(c)}) && !Assessable(env, c, s, run.0))
            || (f == Finding(CandidateMutatedDuringVerification, c.id, Differing(s, run.1)) && run.1 != s)
  {
  }

  lemma OneAssertion(env: Environment, c: Criterion, s: Snapshot, run: (Observation, Snapshot))
    requires CriterionReport(env, c, s, run).Some? && OnlyAssertions(CriterionReport(env, c, s, run).value)
    ensures CriterionReport(env, c, s, run).value in {[], Failed(c, {Implicated(c)})}
  {
    var report := CriterionReport(env, c, s, run).value;
    if report != [] { assert report[0] in report && report[|report| - 1] in report; }
  }

  lemma {:induction false} ReportParts(env: Environment, tick: nat, s: Snapshot, n: nat)
    requires n <= |env.criteria|
    ensures Report(env, tick, s, n).Some? <==> forall i :: 0 <= i < n ==> ReportOf(env, tick, s, i).Some?
    ensures Report(env, tick, s, n).Some? ==>
              forall f :: f in Report(env, tick, s, n).value <==>
                exists i :: 0 <= i < n && f in ReportOf(env, tick, s, i).value
  {
    if n > 0 { ReportParts(env, tick, s, n - 1); }
  }

  /** Findings are a meaningful red of the criteria that report them exactly when each criterion reports what
      is expected of it. */
  lemma RedIffExpected(env: Environment, parts: seq<seq<Finding>>, whole: seq<Finding>)
    requires DistinctIds(env.criteria) && |parts| == |env.criteria|
    requires forall f :: f in whole <==> exists i :: 0 <= i < |parts| && f in parts[i]
    requires forall i, f :: 0 <= i < |parts| && f in parts[i] ==> f.subject == env.criteria[i].id
    requires forall i :: 0 <= i < |parts| && OnlyAssertions(parts[i]) ==>
               parts[i] in {[], Failed(env.criteria[i], {Implicated(env.criteria[i])})}
    ensures MeaningfullyRed(env, whole) <==> forall i :: 0 <= i < |parts| ==> parts[i] == Expected(env.criteria[i])
  {
    if MeaningfullyRed(env, whole) {
      forall i | 0 <= i < |parts| ensures parts[i] == Expected(env.criteria[i]) {
        assert OnlyAssertions(parts[i]) by {
          forall f | f in parts[i] ensures f in whole {}
        }
        if env.criteria[i].TemplateProof? {
          NothingToBuild(env, i);
          assert forall f :: f in parts[i] ==> f.subject in Subjects(whole);
        } else {
          var f := RedHasFailure(env, whole, i);
          var k :| 0 <= k < |parts| && f in parts[k];
          assert k == i && parts[i] != [];
        }
      }
    }
    if forall i :: 0 <= i < |parts| ==> parts[i] == Expected(env.criteria[i]) {
      ExpectedIsRed(env, parts, whole);
    }
  }

  lemma NothingToBuild(env: Environment, i: nat)
    requires DistinctIds(env.criteria) && i < |env.criteria| && env.criteria[i].TemplateProof?
    ensures env.criteria[i].id !in ToBuild(env)
  {
  }

  lemma ExpectedIsRed(env: Environment, parts: seq<seq<Finding>>, whole: seq<Finding>)
    requires |parts| == |env.criteria|
    requires forall f :: f in whole <==> exists i :: 0 <= i < |parts| && f in parts[i]
    requires forall i :: 0 <= i < |parts| ==> parts[i] == Expected(env.criteria[i])
    ensures MeaningfullyRed(env, whole)
  {
    forall id | id in ToBuild(env) ensures id in Subjects(whole) {
      var i :| 0 <= i < |env.criteria| && !env.criteria[i].TemplateProof? && env.criteria[i].id == id;
      assert parts[i][0] in whole;
    }
    forall f | f in whole ensures f.code == AssertionFailed && f.subject in ToBuild(env) {
      var i :| 0 <= i < |parts| && f in parts[i];
      assert env.criteria[i] in env.criteria;
    }
  }

  /** A baseline is accepted exactly when every run on it left its copy intact and was decisive, each template
      proof passed and each other criterion failed. */
  lemma BaselineIff(env: Environment, tick: nat, s: Snapshot)
    requires DistinctIds(env.criteria)
    ensures MeaningfulBaseline(env, tick, s) <==> forall i :: 0 <= i < |env.criteria| ==> RedAt(env, tick, s, i)
    ensures MeaningfulBaseline(env, tick, s) ==> EachFailedBefore(env, tick, s)
  {
    ReportParts(env, tick, s, |env.criteria|);
    forall i | 0 <= i < |env.criteria|
      ensures ReportOf(env, tick, s, i) == Some(Expected(env.criteria[i])) <==> RedAt(env, tick, s, i)
    {
      CriterionReportSays(env, env.criteria[i], s, env.sandbox(tick + i, env.criteria[i], s));
    }
    if Report(env, tick, s, |env.criteria|).Some? { SomeReportRed(env, tick, s); }
  }

  lemma SomeReportRed(env: Environment, tick: nat, s: Snapshot)
    requires DistinctIds(env.criteria) && Report(env, tick, s, |env.criteria|).Some?
    ensures MeaningfullyRed(env, Report(env, tick, s, |env.criteria|).value) <==>
            forall i :: 0 <= i < |env.criteria| ==> ReportOf(env, tick, s, i) == Some(Expected(env.criteria[i]))
  {
    ReportParts(env, tick, s, |env.criteria|);
    var parts: seq<seq<Finding>> :=
      seq(|env.criteria|, i requires 0 <= i < |env.criteria| && ReportOf(env, tick, s, i).Some? =>
        ReportOf(env, tick, s, i).value);
    forall i | 0 <= i < |parts| && OnlyAssertions(parts[i])
      ensures parts[i] in {[], Failed(env.criteria[i], {Implicated(env.criteria[i])})}
    {
      OneAssertion(env, env.criteria[i], s, env.sandbox(tick + i, env.criteria[i], s));
    }
    forall i, f | 0 <= i < |parts| && f in parts[i] ensures f.subject == env.criteria[i].id {
      ReportOfSubject(env, tick, s, i, f);
    }
    RedIffExpected(env, parts, Report(env, tick, s, |env.criteria|).value);
  }

  // ----- relevance of a repair -----

  /** A change bears on a finding: it touches an implicated file, or answers a human test, or
      touches some Python file after a candidate failed to execute. */
  predicate Answers(env: Environment, f: Finding, changed: set<string>) {
    || f.files * changed != {}
    || (changed != {} && exists c :: c in env.criteria && c.HumanTest? && c.id == f.subject)
    || (f.code == CandidateExecutionFailed && exists p :: p in changed && EndsWith(p, ".py"))
  }

  predicate Relevant(env: Environment, findings: seq<Finding>, changed: set<string>) {
    exists f :: f in findings && Answers(env, f, changed)
  }

  /** The guard as the loop computes it: over all findings, the implicated files, the human tests among the
      subjects, and whether a candidate failed to execute. */
  lemma RelevantIff(env: Environment, findings: seq<Finding>, changed: set<string>)
    ensures Relevant(env, findings, changed) <==>
              || (exists f, p :: f in findings && p in f.files && p in changed)
              || (changed != {}
                  && exists f, c :: f in findings && c in env.criteria && c.HumanTest? && c.id == f.subject)
              || ((exists f :: f in findings && f.code == CandidateExecutionFailed)
                  && exists p :: p in changed && EndsWith(p, ".py"))
  {
    if f, p :| f in findings && p in f.files && p in changed {
      assert p in f.files * changed;
      assert Answers(env, f, changed);
    }
    if changed != {} && exists f, c :: f in findings && c in env.criteria && c.HumanTest? && c.id == f.subject {
      var f, c :| f in findings && c in env.criteria && c.HumanTest? && c.id == f.subject;
      assert Answers(env, f, changed);
    }
    if (exists f :: f in findings && f.code == CandidateExecutionFailed)
       && exists p :: p in changed && EndsWith(p, ".py")
    {
      var f :| f in findings && f.code == CandidateExecutionFailed;
      assert Answers(env, f, changed);
    }
    if Relevant(env, findings, changed) {
      var f :| f in findings && Answers(env, f, changed);
      if f.files * changed != {} {
        var p :| p in f.files * changed;
        assert p in f.files && p in changed;
      }
    }
  }

  // ----- the protocol the ledger follows -----

  /** Where a run stands after the events in its ledger. */
  datatype Phase =
    | Start
    | Validated
    | Ready(attempt: int, findings: seq<Finding>)
    | Coded(attempt: int, findings: seq<Finding>, changed: set<string>)
    | Verifying(attempt: int)
    | Done
    | Broken

  /** Why a run may halt when attempt `n` would be next: the attempts are used up, or the coder failed. */
  predicate MayHalt(env: Environment, n: int, cause: Cause) {
    if cause.AttemptBudgetExhausted? then n == Max(0, env.budget.maxAttempts) + 1
    else n <= env.budget.maxAttempts && cause !in {RepeatFindingWithoutRelevantChange, StopRequested, Pass}
  }

  function Step(env: Environment, phase: Phase, e: Event): Phase {
    match (phase, e)
    case (Start, ContractValidated) => Validated
    case (Validated, Stopped) => Done
    case (Validated, MeaningfulRed(fs)) => Ready(1, fs)
    case (Ready(n, _), Stopped) => if n <= env.budget.maxAttempts then Done else Broken
    case (Ready(n, _), Halted(cause)) => if MayHalt(env, n, cause) then Done else Broken
    case (Ready(n, fs), CoderCompleted(m, changed)) =>
      if m == n && n <= env.budget.maxAttempts then Coded(n, fs, changed) else Broken
    case (Coded(n, fs, changed), Halted(cause)) =>
      if n > 1 && cause.RepeatFindingWithoutRelevantChange? && !Relevant(env, fs, changed) then Done else Broken
    case (Coded(n, fs, changed), SecurityFailed(m, found)) =>
      if m == n && (n == 1 || Relevant(env, fs, changed)) then Ready(n + 1, found) else Broken
    case (Coded(n, fs, changed), VerificationStarted(m, ch)) =>
      if m == n && ch == changed && (n == 1 || Relevant(env, fs, changed)) then Verifying(n) else Broken
    case (Verifying(n), QualityChecked(m)) => if m == n then Verifying(n) else Broken
    case (Verifying(n), VerificationFailed(m, found)) => if m == n then Ready(n + 1, found) else Broken
    case (Verifying(_), ReleaseReady(_)) => Done
    case _ => Broken
  }

  function PhaseOf(env: Environment, ledger: seq<Event>): Phase {
    if ledger == [] then Start
    else Step(env, PhaseOf(env, ledger[..|ledger| - 1]), ledger[|ledger| - 1])
  }

  lemma PhaseAfter(env: Environment, ledger: seq<Event>, e: Event)
    ensures PhaseOf(env, ledger + [e]) == Step(env, PhaseOf(env, ledger), e)
  {
    assert (ledger + [e])[..|ledger|] == ledger;
  }

  /** In a ledger, each finished coding attempt is judged or halted as `GoesOnRightly` says. */
  ghost predicate OnlyRelevantRepairs(env: Environment, ledger: seq<Event>) {
    forall i :: 0 <= i < |ledger| && ledger[i].CoderCompleted? ==> GoesOnRightly(env, ledger, i)
  }

  ghost predicate OneTerminalLast(ledger: seq<Event>) {
    |ledger| > 0 && Terminal(ledger[|ledger| - 1]) && forall i :: 0 <= i < |ledger| - 1 ==> !Terminal(ledger[i])
  }

  lemma {:induction false} NoTerminalBeforeDone(env: Environment, ledger: seq<Event>)
    requires PhaseOf(env, ledger) !in {Done, Broken}
    ensures forall i :: 0 <= i < |ledger| ==> !Terminal(ledger[i])
  {
    if ledger != [] { NoTerminalBeforeDone(env, ledger[..|ledger| - 1]); }
  }

  lemma DoneMeansOneTerminal(env: Environment, ledger: seq<Event>)
    requires PhaseOf(env, ledger) == Done
    ensures OneTerminalLast(ledger)
  {
    NoTerminalBeforeDone(env, ledger[..|ledger| - 1]);
  }

  /** The last event tells the findings an attempt starts from. */
  lemma ReadyFollowsFindings(env: Environment, ledger: seq<Event>)
    requires PhaseOf(env, ledger).Ready?
    ensures |ledger| > 0
    ensures var phase, last := PhaseOf(env, ledger), ledger[|ledger| - 1];
            phase.attempt >= 1
            && (phase.attempt == 1 ==> last == MeaningfulRed(phase.findings))
            && (phase.attempt > 1 ==>
               (last.SecurityFailed? || last.VerificationFailed?) && last.findings == phase.findings)
  {
    AttemptsPositive(env, ledger[..|ledger| - 1]);
  }

  lemma {:induction false} AttemptsPositive(env: Environment, ledger: seq<Event>)
    ensures var phase := PhaseOf(env, ledger);
            (phase.Ready? || phase.Coded? || phase.Verifying?) ==> phase.attempt >= 1
  {
    if ledger != [] { AttemptsPositive(env, ledger[..|ledger| - 1]); }
  }

  /** The first attempt is always judged. A later one comes right after the findings it was given, and is
      halted for repeating them exactly when its changes are not relevant to them; otherwise it is judged. */
  predicate GoesOnRightly(env: Environment, ledger: seq<Event>, i: nat)
    requires i < |ledger| && ledger[i].CoderCompleted?
  {
    && i > 0 && ledger[i].attempt >= 1
    && (if ledger[i].attempt == 1 then ledger[i - 1].MeaningfulRed?
        else ledger[i - 1].SecurityFailed? || ledger[i - 1].VerificationFailed?)
    && (i + 1 < |ledger| ==>
          if ledger[i].attempt > 1 && !Relevant(env, ledger[i - 1].findings, ledger[i].changed)
          then ledger[i + 1] == Halted(RepeatFindingWithoutRelevantChange)
          else ledger[i + 1].SecurityFailed? || ledger[i + 1].VerificationStarted?)
  }

  /** An attempt comes right after the findings it was given ... */
  lemma AttemptFollows(env: Environment, earlier: seq<Event>, e: Event)
    requires e.CoderCompleted? && Step(env, PhaseOf(env, earlier), e) != Broken
    ensures |earlier| > 0 && e.attempt >= 1
    ensures if e.attempt == 1 then earlier[|earlier| - 1].MeaningfulRed?
            else earlier[|earlier| - 1].SecurityFailed? || earlier[|earlier| - 1].VerificationFailed?
    ensures Step(env, PhaseOf(env, earlier), e) == Coded(e.attempt, earlier[|earlier| - 1].findings, e.changed)
  {
    ReadyFollowsFindings(env, earlier);
  }

  /** ... and goes on, or is halted, as its changes are relevant to them or not. */
  lemma GoesOnIfRelevant(env: Environment, n: int, findings: seq<Finding>, changed: set<string>, next: Event)
    requires n >= 1 && Step(env, Coded(n, findings, changed), next) != Broken
    ensures if n > 1 && !Relevant(env, findings, changed) then next == Halted(RepeatFindingWithoutRelevantChange)
            else next.SecurityFailed? || next.VerificationStarted?
  {
  }

  lemma PhaseOfLast(env: Environment, ledger: seq<Event>)
    requires ledger != []
    ensures PhaseOf(env, ledger) == Step(env, PhaseOf(env, ledger[..|ledger| - 1]), ledger[|ledger| - 1])
  {
  }

  lemma LastRepair(env: Environment, ledger: seq<Event>)
    requires PhaseOf(env, ledger) != Broken && ledger != [] && ledger[|ledger| - 1].CoderCompleted?
    ensures GoesOnRightly(env, ledger, |ledger| - 1)
  {
    PhaseOfLast(env, ledger);
    AttemptFollows(env, ledger[..|ledger| - 1], ledger[|ledger| - 1]);
  }

  lemma LastButOneRepair(env: Environment, ledger: seq<Event>)
    requires PhaseOf(env, ledger) != Broken && |ledger| >= 2 && ledger[|ledger| - 2].CoderCompleted?
    ensures GoesOnRightly(env, ledger, |ledger| - 2)
  {
    var before := ledger[..|ledger| - 1];
    var earlier, e := before[..|before| - 1], before[|before| - 1];
    PhaseOfLast(env, ledger);
    PhaseOfLast(env, before);
    AttemptFollows(env, earlier, e);
    GoesOnIfRelevant(env, e.attempt, earlier[|earlier| - 1].findings, e.changed, ledger[|ledger| - 1]);
  }

  lemma {:induction false} RepairsAreRelevant(env: Environment, ledger: seq<Event>)
    requires PhaseOf(env, ledger) != Broken
    ensures OnlyRelevantRepairs(env, ledger)
  {
    if ledger != [] {
      var before := ledger[..|ledger| - 1];
      RepairsAreRelevant(env, before);
      forall i | 0 <= i < |ledger| && ledger[i].CoderCompleted? ensures GoesOnRightly(env, ledger, i) {
        if i < |ledger| - 2 {
          assert before[i] == ledger[i] && before[i + 1] == ledger[i + 1] && GoesOnRightly(env, before, i);
        } else if i == |ledger| - 1 {
          LastRepair(env, ledger);
        } else {
          LastButOneRepair(env, ledger);
        }
      }
    }
  }

  // ----- counting attempts -----

  /** How many attempts were coded. */
  function Attempted(ledger: seq<Event>): nat {
    if ledger == [] then 0
    else Attempted(ledger[..|ledger| - 1]) + if ledger[|ledger| - 1].CoderCompleted? then 1 else 0
  }

  /** How many attempts were judged and found wanting. */
  function Failures(ledger: seq<Event>): nat {
    if ledger == [] then 0
    else
      var last := ledger[|ledger| - 1];
      Failures(ledger[..|ledger| - 1]) + if last.SecurityFailed? || last.VerificationFailed? then 1 else 0
  }

  /** The phase tells how many attempts were coded and judged. */
  ghost predicate Counts(env: Environment, ledger: seq<Event>) {
    match PhaseOf(env, ledger)
    case Start => Attempted(ledger) == 0 == Failures(ledger)
    case Validated => Attempted(ledger) == 0 == Failures(ledger)
    case Ready(n, _) => Attempted(ledger) == n - 1 == Failures(ledger) && n <= Max(0, env.budget.maxAttempts) + 1
    case Coded(n, _, _) => Attempted(ledger) == n == Failures(ledger) + 1 && n <= env.budget.maxAttempts
    case Verifying(n) => Attempted(ledger) == n == Failures(ledger) + 1 && n <= env.budget.maxAttempts
    case _ => true
  }

  lemma CountsStep(env: Environment, ledger: seq<Event>, e: Event)
    requires Counts(env, ledger)
    ensures Counts(env, ledger + [e])
    ensures Attempted(ledger + [e]) == Attempted(ledger) + if e.CoderCompleted? then 1 else 0
    ensures Failures(ledger + [e]) == Failures(ledger) + if e.SecurityFailed? || e.VerificationFailed? then 1 else 0
  {
    assert (ledger + [e])[..|ledger|] == ledger;
    PhaseAfter(env, ledger, e);
  }

  lemma {:induction false} PhaseCounts(env: Environment, ledger: seq<Event>)
    ensures Counts(env, ledger)
  {
    if ledger != [] {
      PhaseCounts(env, ledger[..|ledger| - 1]);
      CountsStep(env, ledger[..|ledger| - 1], ledger[|ledger| - 1]);
      assert ledger == ledger[..|ledger| - 1] + [ledger[|ledger| - 1]];
    }
  }

  /** The attempts a closed run reports: those coded, and one more if the coder's answer was unusable. */
  function AttemptsReported(env: Environment, ledger: seq<Event>, cause: Cause): int {
    if cause.AttemptBudgetExhausted? then env.budget.maxAttempts
    else Attempted(ledger) + if cause in {CoderResponseInvalid, CoderModifiedEvidence} then 1 else 0
  }

  ghost predicate Unchanged(paths: set<string>, a: Snapshot, b: Snapshot) {
    forall p :: p in paths ==> (p in a <==> p in b) && (p in a ==> a[p] == b[p])
  }

  predicate ProviderCode(s: string) {
    s != "" && 'A' <= s[0] <= 'Z' && forall c :: c in s ==> 'A' <= c <= 'Z' || '0' <= c <= '9' || c == '_'
  }

  /** The provider's own code survives exactly when it is a plain code without credential material. */
  function Classify(env: Environment, e: ProviderError): (cause: Cause)
    ensures cause == ModelProviderFailed || (e.RuntimeFailure? && cause == Provider(e.message))
    ensures cause != ModelProviderFailed <==>
              && e.RuntimeFailure? && !env.credential(e.message) && e.message != "" && 'A' <= e.message[0] <= 'Z'
              && forall c :: c in e.message ==> 'A' <= c <= 'Z' || '0' <= c <= '9' || c == '_'
  {
    match e
    case OsFailure => ModelProviderFailed
    case RuntimeFailure(message) =>
      if env.credential(message) || !ProviderCode(message) then ModelProviderFailed else Provider(message)
  }

  function Max(a: int, b: int): int { if a < b then b else a }
}
