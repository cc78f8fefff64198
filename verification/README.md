# A verified model of the contract-to-release pipeline

This project models the decision-making core of a fail-closed pipeline that takes an approved
contract to a released candidate, and proves what that core is for. Each module follows one
component; `dafny verify dfyconfig.toml` checks all of them.

- `Json`, `Acceptance`, `AcceptanceCompiler`, `AcceptanceExactness`, `AcceptanceCompleteness`: the
  compiler's contradiction analysis of assertion lists against the evaluator that later judges the
  same assertions on real values. Whatever is refused is unsatisfiable by any JSON document. At one
  path the analysis decides satisfiability for every set without patterns and text bounds, and for a
  value and a part of it the ancestor check is exact for every possible descendant. On ordered text
  it misses exactly two kinds of gap, such as `> "a"` with `< "a\0"`.
- `Engine`, `EngineRun`: the six-state run with an adversarial provider, verifier, stop flag and
  sandbox. A released candidate passed every criterion in a fresh copy that stayed intact, carries no
  blocking security finding, and left every protected test and package initialiser untouched; and
  what ends a run, each halt and the stop included, is there when it is reported.
- `EvidenceLog`: the evidence store under crashes that leave any prefix of the last write.
- `Admission`: keyed admission receipts as a step system of admitters, crashes and a foreign writer.
- `StringConstants`, `AliasSets`: the fixpoint loops of the two CI analysers.
- `CriterionClosure`, `Replay`: capability bindings with the criterion worklist, and the recorded
  tool agent with its budget pre-check.
- `Findings`, `Normalise`, `Delivery`, `UnicodeAdmission`, `ReviewStability`: the findings lifecycle,
  the normal form of architecture proposals, source delivery, structure admission, and the
  review-stability polling loops.

Conventions. Numbers are exact reals. Equality of canonical forms (section 3.2 of RFC 8785) is
equality of values, so digest comparisons are equality tests; where digests are stored, the theorems assume that
the contents compared do not collide. The regular-expression search, the model provider, the sandbox, the quality checker
and the clocks are arbitrary functions or sequences of answers. Encodings whose text form is not
modelled enter as `Lawful` hypotheses: decoding inverts encoding, and in the event log no proper
prefix of an event decodes. Code that loops or updates an object is a method or a class with the
fields the source updates, proved against a specification function.

Where code and intent part:

- The string loop of `scripts/ci/evaluate_security_profile.py` need not stop. When a scope rebinds
  inherited strings in a cycle, every pass changes the map unless all values after the first are equal
  (`StringConstants.RotationNeverStops`, `StringConstants.CycleRestsIff`). Scopes whose names can be
  ranked always stop (`StringConstants.RankedRests`), and the passes come to rest with every inherited
  value intact exactly when some closed map lies above the inherited one
  (`StringConstants.RestsIffCompatible`).
- Where a ranked scope rebinds an inherited name, the order of visiting can show in the result
  (`StringConstants.OrderCanMatter`): with `y` inherited as `"p"`, the scope `y = "q"; x = y; x = "p"`
  gives `x` a value only when `x` is visited first. The check to make is `StringConstants.DefiniteResult`:
  one pass in rank order, after which each name's assignments must agree or one of them must be unable
  to resolve. `StringConstants.RankedResult` is the lemma behind it, about one order at a time.
- Duplicate findings always link to a non-duplicate exactly as long as there are at most 999 findings
  (`Findings.LinksKeptIffSmall`): the store lists findings by file name, and `RF-1000` sorts before
  `RF-101`.
- A requirement that names a criterion is not always named back by it
  (`CriterionClosure.RequirementLinksNeedNotBeAnswered`). Only the other direction is checked, so the
  links are mutual exactly when the references each way are equally many
  (`CriterionClosure.MutualIffCounts`).
- A snapshot whose one path is `.` is assembled and reported as delivered, but written as the file
  `product` and listed as `product/.`, so its package never verifies (`Delivery.DotNeverVerifies`).
- `_write_files` compares what `read_text` gives back, so a file with a carriage return is listed as
  changed when it is written again unchanged (`EngineRun.RepeatedWriteListed`), and is left alone when
  its translated text is written. Listing is exact exactly for files without one
  (`Engine.ListedRightIff`).
- From attempt 2 on the engine's repeat guard is a relevance guard, because the previous findings are
  always the current ones. It is stated that way in the invariant of `EngineRun.Run.Repair`.

## Model

| member | source | states |
|---|---|---|
| Json.SplitJoin | src/pmpe/barebones.py:482-488 | Splitting a path that extends another at a dot gives the parts of the one followed by the parts of the other |
| Json.TextLessIff | src/pmpe/contracts/acceptance.py:258-279 | One text is below another exactly when, where they first differ, it ends or has the smaller character |
| Acceptance.EvaluatorsAgree | src/pmpe/contracts/acceptance.py:282-307 | On every admitted assertion and every document, passing at run time is the compiler's literal check on the value found at the path |
| Acceptance.BoundsMean | src/pmpe/contracts/acceptance.py:258-279 | The four bounds compare numbers as numbers and texts where they first differ, and nothing else |
| Acceptance.DomainSound | src/pmpe/contracts/acceptance.py:354-374 | A value that satisfies an assertion lies in one of the JSON domains computed for it |
| Acceptance.BetweenBounds | src/pmpe/contracts/acceptance.py:452-465 | A value between a floor and a ceiling puts the floor below the ceiling, or all three coincide with both bounds inclusive |
| Acceptance.PairSound | src/pmpe/contracts/acceptance.py:400-465 | No pair of assertions that some value satisfies together is called contradictory |
| Acceptance.ForcedSound | src/pmpe/contracts/acceptance.py:315-330 | A value that satisfies a set is the value the set forces by an equality, a pinning operator or a floor meeting its ceiling |
| Acceptance.SetSound | src/pmpe/contracts/acceptance.py:310-334 | A set that some value satisfies is never called contradictory |
| AcceptanceCompiler.WalkComposes | src/pmpe/barebones.py:482-488 | Walking a concatenated path is walking its first part and then its second |
| AcceptanceCompiler.DescendantIff | src/pmpe/contracts/acceptance.py:234-255 | One path descends from another exactly when its parts begin with all the parts of the other and go on |
| AcceptanceCompiler.AncestorSound | src/pmpe/contracts/acceptance.py:377-397 | An ancestor and a descendant assertion that one document passes are never called contradictory |
| AcceptanceCompleteness.AncestorExact | src/pmpe/contracts/acceptance.py:377-397 | An ancestor and a descendant assertion are passed by no document exactly when the ancestor check refuses them or no value at all satisfies the descendant |
| AcceptanceCompiler.RefusalIsSound | src/pmpe/contracts/acceptance.py:234-255 | A refused assertion list is passed by no JSON document under the runtime evaluator |
| AcceptanceCompiler.CheckPairs | src/pmpe/contracts/acceptance.py:310-313 | The double loop answers yes exactly when some pair at different indices clashes |
| AcceptanceCompiler.ForcedValues | src/pmpe/contracts/acceptance.py:315-330 | The collected list holds exactly the values the set forces |
| AcceptanceCompiler.CheckSet | src/pmpe/contracts/acceptance.py:310-334 | The set check answers yes exactly when a pair clashes or a forced value fails some assertion |
| AcceptanceCompiler.NamesParse | src/pmpe/contracts/acceptance.py:174-233 | Each operator is read from its own name and from no other text |
| AcceptanceCompiler.ReadsBack | src/pmpe/contracts/acceptance.py:174-233 | An assertion written down as a raw item is read back unchanged exactly when it is well formed and its pattern compiles |
| AcceptanceCompiler.AdmittedSays | src/pmpe/contracts/acceptance.py:174-233 | An admitted item has the path, operator and value of the raw object |
| AcceptanceCompiler.RefusalSays | src/pmpe/contracts/acceptance.py:174-233 | A refused item is refused for the reason its diagnostic names |
| AcceptanceCompiler.ReadItem | src/pmpe/contracts/acceptance.py:174-233 | An admitted item is well formed, and a refused one carries an item diagnostic |
| AcceptanceCompiler.ItemsAccountedFor | src/pmpe/contracts/acceptance.py:173-233 | Every raw item is compiled or leaves one diagnostic, and with none left the compiled list is the raw one item for item |
| AcceptanceCompiler.ReadInOrder | src/pmpe/contracts/acceptance.py:173-233 | Compiled items and diagnostics come in the order of the raw list |
| AcceptanceCompiler.CompileAssertions | src/pmpe/contracts/acceptance.py:157-255 | No diagnostic exactly for a non-empty list of admitted items that is not flagged; a list refused as contradictory is unsatisfiable |
| AcceptanceExactness.ExactWhenPinned | src/pmpe/contracts/acceptance.py:310-334 | With an equality or a pinning operator in a set at one path, the set is flagged exactly when no document passes it |
| AcceptanceExactness.AvoidFinitely | src/pmpe/contracts/acceptance.py:310-334 | Every open interval contains an open interval that avoids all excluded values of a set |
| AcceptanceExactness.ExactOnNumbers | src/pmpe/contracts/acceptance.py:400-465 | A set of numeric bounds, exclusions and not_null at one path is flagged exactly when no document passes it |
| AcceptanceExactness.ExactOnTextUpToGaps | src/pmpe/contracts/acceptance.py:400-465 | A set of ordered text bounds is unsatisfiable exactly when it is flagged or holds one of two gaps |
| AcceptanceExactness.TextGapInstance | src/pmpe/contracts/acceptance.py:452-465 | A concrete pair of text bounds is accepted although no document passes it |
| AcceptanceCompleteness.DomainTight | src/pmpe/contracts/acceptance.py:354-374 | Each JSON domain listed for an assertion holds a value that satisfies it, patterns that match nothing and such degenerate cases aside |
| AcceptanceCompleteness.TypesApartRefused | src/pmpe/contracts/acceptance.py:400-404 | Two assertions that admit no common JSON type are refused |
| AcceptanceCompleteness.ExactOnContainment | src/pmpe/contracts/acceptance.py:400-465 | A set of containments, exclusions and not_null at one path is flagged exactly when no document passes it |
| AcceptanceCompleteness.ExactWithoutText | src/pmpe/contracts/acceptance.py:310-334 | So is every set at one path without patterns and text bounds |
| AcceptanceCompleteness.ImpossibleDescendantRefused | src/pmpe/contracts/acceptance.py:234-255 | Every list holding an ancestor and a possible descendant that no document passes together is refused |
| AcceptanceCompleteness.ImpossiblePathRefused | src/pmpe/contracts/acceptance.py:234-255 | Every list is refused whose assertions at one path, without patterns and text bounds, no document passes together |
| Engine.WalkParents | src/pmpe/barebones.py:1155-1160 | The parent walk finds exactly the package initialisers of the directories above a path |
| Engine.SafeIff | src/pmpe/barebones.py:419-423 | The safe paths are the admitted names with slashes between them, none of them . or .. |
| Engine.EmptyReport | src/pmpe/barebones.py:811-867 | A report is empty exactly when every criterion passed on its own fresh copy and left that copy unchanged |
| Engine.CriterionReportSays | src/pmpe/barebones.py:716-867 | A criterion reports nothing usable, an assertion failure at its file, or what a meaningful red expects, exactly when its run showed so |
| Engine.CriterionFindingsAre | src/pmpe/barebones.py:716-867 | A criterion reports a failed assertion, an unusable test and a changed copy each exactly when its run showed one, at the file it points at or the files that changed |
| Engine.ModuleFileOf | src/pmpe/barebones.py:793-801 | The dotted module of a target names its file, part by part |
| Engine.ShownIff | src/pmpe/barebones.py:922-929 | A file goes into a coder request exactly when its name has one of the suffixes and more, outside caches |
| Engine.RelevantIff | src/pmpe/barebones.py:1284-1312 | The relevance guard as the loop computes it over all findings at once |
| Engine.BaselineIff | src/pmpe/barebones.py:1161-1173 | A baseline is accepted exactly when every run on it left its copy intact and was decisive, each template proof passed and each other criterion failed |
| Engine.DoneMeansOneTerminal | src/pmpe/barebones.py:1472-1484 | A ledger that follows the protocol to its end holds exactly one terminal event, the last one |
| Engine.RepairsAreRelevant | src/pmpe/barebones.py:1284-1312 | In a ledger that follows the protocol each coding attempt comes right after the findings it was given; from attempt 2 on it is halted as a repeat exactly when its changes are not relevant to them, and is judged otherwise |
| Engine.PhaseCounts | src/pmpe/barebones.py:1186-1484 | In a ledger that follows the protocol the attempt number is the number of attempts coded, all but the current one judged and failed |
| EngineRun.Run.Invoke | src/pmpe/barebones.py:939-996 | At most one counted provider call; an answer is bound to its request, free of credentials, within the byte budget and with valid usage, and each refusal is for the first check that failed |
| EngineRun.Run.Charge | src/pmpe/barebones.py:962-985 | Usage is accepted exactly when each field is valid and keeps the token sums within 2^53-1, and is then added in full |
| Engine.ListedRightIff | src/pmpe/barebones.py:430-442 | Writing over a file is listed as a change exactly when it is one, for every content, exactly when the file holds no carriage return |
| EngineRun.Run.WriteFiles | src/pmpe/barebones.py:430-442 | A successful write overwrites exactly the files that are absent or read back as something else, after newline translation, and names exactly those |
| EngineRun.ChangesExact | src/pmpe/barebones.py:430-442 | Where no file written over holds a carriage return, the files hold exactly the entries and the named paths are exactly those that differ |
| EngineRun.RepeatedWriteListed | src/pmpe/barebones.py:430-442 | A text with a carriage return written over itself changes nothing and is named as changed |
| EngineRun.Run.VerifySnapshot | src/pmpe/barebones.py:811-867 | The loop returns the report of all criteria, or the invalid-contract error if any of them raises it |
| EngineRun.Run.BlockingFindings | src/pmpe/barebones.py:870-888 | The blocking findings are exactly those of files that read as holding credential material, or as Python with high-risk code |
| EngineRun.Run.Build | src/pmpe/barebones.py:1196-1255 | Whatever the provider answers, protected paths keep their content; a success writes the provider's files as WriteFiles does, and an attempt gets stuck exactly for a refused provider or refused files, and is counted or not accordingly |
| EngineRun.Run.Gate | src/pmpe/barebones.py:1313-1397 | Nothing is found exactly when the candidate is clean under security, quality and all criteria in the runs made; otherwise the findings are those of security, or else of quality, or else of the criteria, and the next attempt starts from them |
| EngineRun.QualityFindingsOn | src/pmpe/barebones.py:1361-1370 | The quality findings are exactly the failed checks, by name, at all Python files |
| EngineRun.ActionFilesAre | src/pmpe/barebones.py:1376-1388 | An unusable contract points at the files of the action targets |
| EngineRun.Run.Complete | src/pmpe/barebones.py:1284-1312 | An attempt goes on to be judged exactly when it is the first or its changes are relevant to its findings |
| EngineRun.Run.Attempt | src/pmpe/barebones.py:1186-1457 | One turn: it is stopped exactly when the flag read true, tries again exactly from an unclean candidate, and halts only for a cause that explains it |
| EngineRun.Run.Seal | src/pmpe/barebones.py:1397-1457 | The advisory call cannot block, and the sealed event holds the verified workspace |
| EngineRun.Run.Repair | src/pmpe/barebones.py:1186-1484 | Over the whole attempt loop the protocol, the call bounds and the protected paths are kept, and each outcome is explained: by the ledger, the stop flag, a provider answer, or a crash |
| EngineRun.Run.Execute | src/pmpe/barebones.py:999-1484 | A run raises, stops or returns as it opens; a returned run has one terminal event, the last, that names its cause, repairs as RepairsAreRelevant says, a stop exactly on the last look at the flag, a used-up attempt budget only after as many failures, and the attempts its ledger shows; RELEASE_READY sealed the snapshot on which everything passed, with all protected paths as before attempt 1 |
| EngineRun.ProtectTests | src/pmpe/barebones.py:1135-1160 | The protected set is exactly the trusted tests, the human tests and the initialisers above them |
| EngineRun.Run.PlaceFiles | src/pmpe/barebones.py:1134-1153 | The template and the human tests are put in place exactly when the tests are unchanged and all paths are safe and can lie side by side; the workspace is then the template with the tests over it |
| EngineRun.Run.Prepare | src/pmpe/barebones.py:1134-1183 | Attempt 1 is reached exactly when the files can be placed and the baseline is a meaningful red |
| EngineRun.CleanIsReleasable | src/pmpe/barebones.py:1313-1397 | No gate found anything exactly when all criteria passed intact, security is clean and required quality passed |
| EngineRun.ReleasedCriteriaNotContradictory | src/pmpe/barebones.py:716-801 | The assertion lists of a released criterion are none the compiler would refuse |
| EngineRun.SealedDiffersFromBaseline | src/pmpe/barebones.py:1161-1173 | With a deterministic sandbox and something to build the sealed candidate is not the baseline |
| EngineRun.ApprovedTestsSurvive | src/pmpe/barebones.py:1144-1160 | In the sealed candidate each human test reads as its approved source, and is that source exactly when it has no carriage return, unless a template file with one lies in its place; initialisers above it are as they were, or absent still |
| EngineRun.TemplateTestsSurvive | src/pmpe/barebones.py:1135-1142 | Template proofs and files under tests are as they were, and as the template has them unless a human test lies in their place |
| EvidenceLog.ReadLines | src/pmpe/audit/evidence.py:646-675 | The reading loop finds the events, the length to keep and the missing newline that the recursive reading finds |
| EvidenceLog.LinesAre | src/pmpe/audit/evidence.py:649-653 | The lines of a file put together are the file; each is one line, and each but the last is ended by a newline or a return, never between a return and its newline |
| EvidenceLog.EvidenceStore.ReadEvents | src/pmpe/audit/evidence.py:646-675 | A repairing read returns the events and leaves the repaired file; other reads and failures change nothing |
| EvidenceLog.EvidenceStore.EnsureObject | src/pmpe/audit/evidence.py:622-638 | Succeeds exactly when the address is free or already holds this manifest, which it then holds |
| EvidenceLog.EvidenceStore.Append | src/pmpe/audit/evidence.py:585-620 | The disk and the answer are those of the append specification |
| EvidenceLog.ScanShaped | src/pmpe/audit/evidence.py:646-675 | A file of whole lines and a torn tail reads back as its complete events and is repaired to exactly their lines |
| EvidenceLog.PlainRead | src/pmpe/audit/evidence.py:640-675 | A plain read of such a file returns all its events, the last one also without its newline, or fails, and fails exactly on a torn last line |
| EvidenceLog.FinishKeepsSound | src/pmpe/audit/evidence.py:585-620 | A finished append keeps the invariant and records exactly its new event, if the id is new |
| EvidenceLog.CrashKeepsSound | src/pmpe/audit/evidence.py:585-675 | A crash at any point keeps the invariant and records at most the event being written |
| EvidenceLog.CrashSafety | src/pmpe/audit/evidence.py:585-675 | After any run of appends and crashes the file reads, ids are unique, objects are stored, acknowledged events are there, and the others are at most one per crash |
| EvidenceLog.RecoveredOnlyGrows | src/pmpe/audit/evidence.py:585-675 | Events recovered once stay in the same place for the rest of the run |
| EvidenceLog.PlainReadOverRuns | src/pmpe/audit/evidence.py:640-675 | At any point of a run a plain read gives what the next append recovers or fails on a torn line, and it does not fail right after a finished append |
| EvidenceLog.AppendDecides | src/pmpe/audit/evidence.py:594-620 | A well-formed append is refused exactly for a reused id with other evidence or an occupied address, and otherwise adds its event once |
| Admission.NeverReplaced | src/pmpe/admission/receipts.py:42-75 | No step replaces, rewrites or removes a published receipt |
| Admission.StepKeepsInvariant | src/pmpe/admission/receipts.py:291-424 | Every step of any call, crash or foreign writer keeps the protocol invariant |
| Admission.EveryReachableState | src/pmpe/admission/receipts.py:291-424 | The invariant holds after every possible list of steps, so two running calls for one artifact never both hold its lock |
| Admission.AdmitsAgree | src/pmpe/admission/receipts.py:264-424 | All successful calls for one artifact returned the same receipt with equal bindings, and it is the published file |
| Admission.StoredIsReturned | src/pmpe/admission/receipts.py:264-307 | Looking at a stored receipt returns it exactly when it is canonical, within the size limit, of this artifact and these bindings, of a valid digest and verified by the provider, and fails otherwise |
| Admission.FirstCallReturns | src/pmpe/admission/receipts.py:291-424 | A publishable call run alone on a free artifact publishes and returns its own signed receipt |
| Admission.LaterCallReturns | src/pmpe/admission/receipts.py:291-307 | A later call for the same artifact returns what is stored |
| Admission.AdmitTwice | src/pmpe/admission/receipts.py:291-424 | Two calls one after another with equal bindings and provider both return the receipt of the first |
| Admission.SignedSays | src/pmpe/admission/receipts.py:325-356 | A signed receipt speaks of its artifact and bindings, with the fingerprint and the digest of its authority |
| Admission.ValidSubjectIff | src/pmpe/admission/receipts.py:78-97 | A subject is valid exactly with a kind of a capital and 1 to 63 more characters, a digest, and non-empty bindings of non-empty texts |
| Admission.VerifyAcceptsReturned | src/pmpe/admission/receipts.py:428-460 | A returned receipt verifies exactly while its key is one of the verifier's candidates |
| Admission.VerifyIff | src/pmpe/admission/receipts.py:428-460 | Verification accepts exactly the stored receipt of a valid subject with these bindings, digest and a candidate key |
| Admission.PublishedForever | src/pmpe/admission/receipts.py:42-75 | A published receipt holds the same bytes in every later state |
| Admission.PublishedWhole | src/pmpe/admission/receipts.py:357-403 | In every reachable state a receipt file is the foreign writer's or one complete signed receipt |
| StringConstants.ResolveMonotone | scripts/ci/verify_privacy_controls.py:333-352 | A string resolved under some aliases resolves to the same value under more aliases |
| StringConstants.ResolvesToText | scripts/ci/evaluate_security_profile.py:426-445 | An expression resolves to a text exactly when every leaf is a constant or a known name, no sum inside is too long, and the text is that of the leaves from left to right |
| StringConstants.AgreedIff | scripts/ci/evaluate_security_profile.py:1611-1624 | The assignments of a name agree on a text exactly when there are some and all denote it |
| StringConstants.Propagate | scripts/ci/evaluate_security_profile.py:1611-1624 | In ranked scopes, and in scopes compatible with what they inherit, stops within one pass per assigned name and one more, in a map no pass changes, in which names whose assignments agree hold the text they denote; compatible scopes keep every value once set and end in the least fixpoint, and ranked scopes whose names are definite end in the result of rank order |
| StringConstants.RankedRests | scripts/ci/evaluate_security_profile.py:1611-1624 | When names can be ranked so that values refer only to lower-ranked or unassigned names, every order of visiting comes to rest within one pass per name, whatever is inherited |
| StringConstants.RankedResult | scripts/ci/evaluate_security_profile.py:1611-1624 | An order then ends in the result of rank order exactly when every name whose assignments do not agree there was left as inherited |
| StringConstants.DefiniteResult | scripts/ci/evaluate_security_profile.py:1611-1624 | Every order does so when in that result each name's assignments agree, or one of them cannot resolve |
| StringConstants.OrderCanMatter | scripts/ci/evaluate_security_profile.py:1611-1624 | A ranked scope that rebinds an inherited name ends in two different maps in its two orders |
| StringConstants.PropagateFromNothing | scripts/ci/verify_privacy_controls.py:718-732 | The privacy loop ends in the least fixpoint over the empty map, whatever the scope, and each name there holds exactly the text its assignments denote |
| StringConstants.OrderDoesNotMatter | scripts/ci/verify_privacy_controls.py:718-732 | Two orders end in the same map when the inherited values are compatible, or the scope is ranked and definite |
| StringConstants.RestsIffCompatible | scripts/ci/evaluate_security_profile.py:1611-1624 | The passes come to rest with all inherited values intact exactly when a closed map lies above the inherited one |
| StringConstants.LocalScopesAreCompatible | scripts/ci/evaluate_security_profile.py:1335-1347 | A scope that assigns only its own locals is always compatible with what it inherits |
| StringConstants.RotationNeverStops | scripts/ci/evaluate_security_profile.py:1611-1624 | Inherited strings rebound in a cycle of any length, those after the first not all equal, change in every pass, for ever |
| StringConstants.CycleRestsIff | scripts/ci/evaluate_security_profile.py:1611-1624 | A cycle visited in its own order comes to rest exactly when all its inherited values but the first are equal |
| AliasSets.AddTargets | scripts/ci/evaluate_security_profile.py:1626-1771 | Adds exactly the name targets to the chosen set and reports a change exactly when one was missing |
| AliasSets.MissingShrinks | scripts/ci/evaluate_security_profile.py:1626-1771 | Growing the sets by target names lowers the number of missing names, strictly if anything changed |
| AliasSets.Saturate | scripts/ci/evaluate_security_profile.py:1626-1771 | The loop stops for any rules, adds only names some rule puts there on the way, ends with nothing left to add or report, in the least such sets when the rules are monotone, and reports nothing that was no report on the way |
| AliasSets.SecurityAliases | scripts/ci/evaluate_security_profile.py:1626-1771 | Outside classes every assignment's first matching kind holds its name targets, and every name added was such a target at some point; class scopes move nothing; what stays unresolved was reported and nothing else |
| AliasSets.PrivacyAliases | scripts/ci/verify_privacy_controls.py:733-801 | Ends with the targets of reflection callables, direct dictionaries and namespace references in their sets, and with nothing added that never belonged there |
| AliasSets.InheritedAliases | scripts/ci/evaluate_security_profile.py:1320-1332 | A name is inherited from the module if declared global, and otherwise from the parent unless local |
| CriterionClosure.Expand | src/pmpe/barebones_selection.py:697-702 | Accepts exactly when every requirement is sound and names the criterion, and queues exactly the linked criteria |
| CriterionClosure.ValidateClosure | src/pmpe/barebones_selection.py:651-702 | Stops; accepts only with a closed set of good criteria around the root; refuses only for a reason reachable from it |
| CriterionClosure.ValidateBinding | src/pmpe/barebones_selection.py:764-772 | With the visited set carried along, accepts exactly when each bound criterion carries the verifier and everything reachable is good |
| CriterionClosure.ValidateCapabilities | src/pmpe/barebones_selection.py:705-780 | Accepts exactly the selections that bind each declared capability once, with its verifier, over criteria whose whole closure is good |
| CriterionClosure.AcceptedIff | src/pmpe/barebones_selection.py:598-780 | A selection is accepted exactly when its bindings are known ones, one for each declared capability, and every criterion reachable from a bound one is well formed with requirements that answer it |
| CriterionClosure.CriterionIdIff | src/pmpe/barebones_selection.py:21 | A criterion identifier is AC- and runs of capitals and digits with dashes between them |
| CriterionClosure.MutualIffCounts | src/pmpe/barebones_selection.py:598-702 | In an accepted selection every requirement a reachable criterion names, names it back, and the links are mutual exactly when there are as many references from the criteria as from the requirements |
| CriterionClosure.RequirementLinksNeedNotBeAnswered | src/pmpe/barebones_selection.py:598-648 | A concrete accepted selection has a requirement that lists a criterion which does not list it |
| Replay.ReplayEvents | src/pmpe/recorded_tool_agent.py:232-330 | The loop finishes with the folded state exactly when every event replays and the clock was never late, and otherwise stops at the first late look or unreplayable event |
| Replay.StepDecides | src/pmpe/recorded_tool_agent.py:246-318 | An event is replayed exactly when no cause applies to it, and otherwise the halt names the first that does, in the order of the checks |
| Replay.Run | src/pmpe/recorded_tool_agent.py:232-371 | Released exactly when the whole transcript replays, is complete and in time; a halt names what stopped it, after exactly the events recorded in the ledger, and is never a release |
| Replay.CountersCount | src/pmpe/recorded_tool_agent.py:246-318 | The loop's three counters are the transcript's own counts |
| Replay.AdmittedBudgetsNeverBind | src/pmpe/barebones_selection.py:506-545 | Under budgets that pass the pre-check every step does what it would do without the four limit comparisons |
| Replay.PreCheckExact | src/pmpe/barebones_selection.py:506-545 | Of the budgets in range, the pre-check admits exactly those under which the recorded transcript replays |
| Replay.AcceptsTranscripts | src/pmpe/recorded_tool_agent.py:232-330 | Exactly the lists of tool rounds followed by one non-empty stop are accepted, with attempts one more than calls and the text of that stop as output |
| Replay.LimitsExact | src/pmpe/recorded_tool_agent.py:246-318 | Events are replayed within the limits exactly when they are replayed without and their counts are within |
| Replay.ReleasedMeansTranscript | src/pmpe/recorded_tool_agent.py:232-330 | The replay completes exactly on such a transcript within its limits, with the text of the final stop as output; with admitted budgets every such transcript completes |
| Findings.FindingsStore.Intake | src/pmpe/assurance/findings.py:78-114 | Refused exactly when another candidate is on record, and otherwise numbers the new findings on unchanged ones |
| Findings.FindingsStore.Reconcile | src/pmpe/assurance/reconcile.py:38-117 | Store, answer and lists are those of the reconciliation fold |
| Findings.ReconcileDecides | src/pmpe/assurance/reconcile.py:38-117 | A listed open finding ends as a duplicate exactly when an earlier listed one has its key, and otherwise as its product decision, its owner decision or the low-severity policy says, by whom it says, or stays open |
| Findings.ReconcileOkIff | src/pmpe/assurance/reconcile.py:38-117 | Reconciliation fails exactly when a decision it comes to lacks a name or a reason |
| Findings.FindingsStore.RecordFix | src/pmpe/assurance/fixer_gate.py:41-57 | Fixes exactly an accepted finding within the allowed files, and changes nothing else |
| Findings.FindingsStore.RecordVerified | src/pmpe/assurance/findings.py:161-174 | Verifies exactly a fixed finding by someone other than its fixer, and changes nothing else |
| Findings.EveryFindingInOneList | src/pmpe/assurance/reconcile.py:56-128 | After reconciliation each list holds exactly the findings of its status, once each |
| Findings.ReconcileKeepsLinks | src/pmpe/assurance/reconcile.py:56-74 | Reconciling in number order keeps every duplicate linked to the first finding with its key |
| Findings.ListingExists | src/pmpe/assurance/findings.py:184-188 | Stores of every size have a listing in the order of their file names |
| Findings.BreakingRun | src/pmpe/assurance/reconcile.py:47-117 | For every size from 1000 on, two intakes and two reconciliations end with a duplicate that links to a duplicate |
| Findings.LinksKeptIffSmall | src/pmpe/assurance/reconcile.py:47-117 | Every run that ends with a given number of findings ends with its duplicates linked to non-duplicates exactly when that number is at most 999 |
| Findings.LifecycleOverRuns | src/pmpe/assurance/findings.py:122-174 | Over every interleaving statuses follow the lifecycle, verified findings name a decider and a verifier other than the fixer, and the fixer's files never shrink |
| Findings.LinksOverRuns | src/pmpe/assurance/reconcile.py:47-117 | Over every interleaving up to 999 findings each duplicate links to a non-duplicate with its file, line and title |
| Normalise.SortIgnoresOrder | src/pmpe/architecture/compiler.py:160-172 | Lists with the same elements sort alike when keys tell the elements apart |
| Normalise.Idempotent | src/pmpe/architecture/compiler.py:160-172 | Normalising twice is normalising once |
| Normalise.NormalFormSound | src/pmpe/architecture/compiler.py:160-172 | The normal form differs from the proposal only in the order of sortable lists, at any depth, and all of those are sorted |
| Normalise.SortByStable | src/pmpe/architecture/compiler.py:160-172 | Sorting keeps the order of elements with equal keys |
| Normalise.ReorderedSameForm | src/pmpe/architecture/compiler.py:160-338 | Proposals that differ only by nested reordering of string lists and distinctly keyed object lists have one normal form, and any packs compiled from them are equal, digest included |
| Normalise.EqualKeysKeepOrder | src/pmpe/architecture/compiler.py:160-172 | Two different elements with equal keys do not: their order shows in the normal form |
| Delivery.Assemble | src/pmpe/delivery.py:43-112 | Succeeds exactly under the gate into a free output with paths that can all be written, none holding a NUL, and leaves exactly the package and its manifest |
| Delivery.ConflictIff | src/pmpe/delivery.py:96-99 | The sources can be written exactly when no path holds a NUL and no name on the disk would be a directory above another |
| Delivery.MayDeliverIff | src/pmpe/delivery.py:51-71 | The gate exactly: sources under safe paths, four digests of which one is that of the sources, and a passed quality report on it with every required check |
| Delivery.ChecksPassIff | src/pmpe/delivery.py:66-69 | The checks pass exactly when each required one is there, once, with nothing else, and all passed |
| Delivery.SafeIff | src/pmpe/delivery.py:30-40 | The accepted paths are the non-empty relative ones without .. and backslash that are written as the path library writes them |
| Delivery.Verify | src/pmpe/delivery.py:115-156 | Accepts exactly a tree whose manifest has the expected digest and whose inventory matches byte for byte, and names its candidate |
| Delivery.VerifiesIff | src/pmpe/delivery.py:115-156 | A directory verifies exactly when its manifest has the digest, the three fixed headers, a candidate, and the other files and no others under safe paths with their digests |
| Delivery.AssembledVerifies | src/pmpe/delivery.py:43-156 | An assembled package verifies under its own digest exactly when the path `.` is not among its sources |
| Delivery.DotNeverVerifies | src/pmpe/delivery.py:52-105 | A snapshot holding the one path `.` is delivered with success and its package never verifies |
| Delivery.VerifiedTreeUnique | src/pmpe/delivery.py:115-156 | At most one tree verifies under one manifest digest, when no two contents of the two trees share a digest |
| Delivery.DeliveryIsExact | src/pmpe/delivery.py:43-156 | Under the returned digest a symlink-free tree whose contents collide with none of the package verifies exactly when it is the assembled one and `.` was no source, with the same candidate digest |
| Delivery.PackageKeepsSources | src/pmpe/delivery.py:72-73 | A path is in the snapshot exactly when its placed path is in the package, with the same bytes |
| Delivery.ManifestSays | src/pmpe/delivery.py:85-91 | The manifest has the three fixed headers, the whole identity, and every file with its digest |
| UnicodeAdmission.DecodesIffWellPaired | src/pmpe/contracts/canonical.py:76-80 | UTF-16 units decode exactly when every surrogate stands in a high-low pair |
| UnicodeAdmission.DecodedHasNoSurrogates | src/pmpe/contracts/canonical.py:76-80 | Decoded text holds no surrogate and encodes back to the same units |
| UnicodeAdmission.NonCharacterIff | src/pmpe/contracts/canonical.py:76-86 | The refused code points are the 66 noncharacters |
| UnicodeAdmission.FaultFreeIffClean | src/pmpe/contracts/canonical.py:63-114 | No fault is found exactly in structures of well-formed text, string keys distinct after merging, and supported values |
| UnicodeAdmission.NormalFormStable | src/pmpe/contracts/canonical.py:63-114 | A normal form holds no surrogate, keeps nodes and depth, and is its own normal form |
| UnicodeAdmission.NormalKeepsUnits | src/pmpe/contracts/canonical.py:63-114 | Admission rewrites surrogate pairs and nothing else: text by text the UTF-16 stays |
| UnicodeAdmission.Budget.Admit | src/pmpe/contracts/canonical.py:63-114 | With the shared counter, accepts exactly the fault-free structures within both limits, counts every node and key, and refuses only for a fault that is there |
| UnicodeAdmission.Budget.AdmitMembers | src/pmpe/contracts/canonical.py:90-109 | The member loop accepts exactly string keys distinct after merging over admitted values, and builds the normal members in order |
| UnicodeAdmission.AdmitUnicode | src/pmpe/contracts/canonical.py:63-114 | A whole admission accepts exactly the interoperable structures within depth 128 and 100000 nodes; its result would be admitted again unchanged |
| ReviewStability.IdentitiesIff | scripts/verify_codex_review.py:161-183 | Two listings whose distinct records have distinct dumps have one identity exactly when they hold the same records |
| ReviewStability.SameSnapshotSameVerdict | scripts/verify_codex_review.py:169-203 | Equal snapshots give equal blocker and clean-evidence verdicts |
| ReviewStability.ReviewCounts | scripts/verify_codex_review.py:140-164 | A review counts, for or against, exactly when the bot wrote it on the expected head with the marker or a badge |
| ReviewStability.CommentCounts | scripts/verify_codex_review.py:128-137 | A comment counts exactly when the bot reports nothing in it and it names the head in full or by a short form that resolves to it |
| ReviewStability.ThreadCounts | scripts/verify_codex_review.py:114-125 | A thread blocks exactly when it is neither outdated nor resolved and the bot flags something in it |
| ReviewStability.EvidenceIff | scripts/verify_codex_review.py:189-203 | Evidence is clean exactly when something counts for the head and no flagged review counts against it |
| ReviewStability.QuietIff | scripts/verify_codex_review.py:244-253 | A reading is quiet exactly when no thread blocks, evidence is clean and it ended before the deadline |
| ReviewStability.AwaitEvidence | scripts/verify_codex_review.py:206-232 | For any monotone clock, succeeds exactly at the first clean pass with the head unchanged throughout and in time |
| ReviewStability.RunDecidesStability | scripts/verify_codex_review.py:254-263 | Measuring from the start of the current run decides whether any contiguous stretch of equal snapshots spans the window |
| ReviewStability.Stabilise | scripts/verify_codex_review.py:233-263 | Succeeds exactly when at least two contiguous equal snapshots span the window while every observation was clean, unblocked and before the deadline |
| ReviewStability.VerifyReview | scripts/verify_codex_review.py:206-272 | The whole verification succeeds exactly when evidence appeared in time, the surface stood still, and the final head matched before the deadline |

## Left out

- AcceptanceExactness.ExactOnNumbers: does not hold for IEEE doubles, between which a half-open gap can be empty; numbers are reals here, and soundness does not depend on it.
- AcceptanceCompiler.CompileAssertions: does not model the diagnostics' texts and paths, nor the rest of `compile_acceptance_plan` (criterion forms, requirement coverage, digests), which are single-branch checks.
- Acceptance.EvaluatorsAgree: does not cover values outside JSON, or patterns whose search raises an error.
- EngineRun.Run.Execute: does not model the approval receipt, evidence blobs, telemetry, `provider_model_id` or the message text and the order of security findings.
- EngineRun.Run.WriteFiles: does not fix the order in which entries are written, so on failure only the untouched paths are described; links inside the workspace are not modelled.
- EngineRun.Run.VerifySnapshot: does not model how a criterion is executed; one sandboxed execution and the files it leaves are arbitrary.
- EvidenceLog.CrashSafety: does not model the JSON text of an event or the file locks of concurrent writers; appends come one after another, and the encodings enter as hypotheses.
- Admission.AdmitsAgree: is stated over a step system instead of the method body, so that calls interleave; directory creation, permissions and retries of system calls are one failing step.
- StringConstants.Propagate: is stated for scopes that are ranked or compatible with what they inherit, because a cyclic rebinding of inherited names need not stop; which of the remaining cyclic scopes stop is not characterised.
- StringConstants.DefiniteResult: gives a condition under which all orders agree and not its converse; for one order at a time RankedResult gives both directions.
- AliasSets.Saturate: does not model which expressions each reference kind recognises; the predicates are arbitrary functions of the value and the sets, and the reflection catalogue is not part of this model.
- CriterionClosure.ValidateCapabilities: does not model the messages or the requirement checks that do not look at the graph, which are one truth value.
- Replay.Run: does not model the fixture's digest checks, the schemas, or the bodies of the two tools, and tells booleans from numbers where Python's equality does not.
- Findings.LinksOverRuns: is stated for at most 999 findings, because for every larger number BreakingRun gives a run on which it is false.
- Findings.FindingsStore.Reconcile: does not model product change requests or reasons as text; titles are taken as already case-folded, and an owner decision is either acceptance or rejection, the two values its source comment allows.
- Normalise.ReorderedSameForm: does not model the individual security, approval-boundary and reference rules of `compile`; what follows normalisation is an arbitrary function of the normal form.
- Delivery.Assemble: does not model the temporary directory, its rename and the removal after a failure; a write that needs a file and a directory of one name is a failure, and so is a NUL in a path; limits on the length of names are not modelled.
- UnicodeAdmission.AdmitUnicode: does not model the parsing of JSON and YAML text; the numeric checks of `_parse_int` and `_parse_float` are single comparisons.
- ReviewStability.VerifyReview: takes finite lists of readings, and is pending when they end; the pages GitHub returns and the lengths of the sleeps are not modelled.
- Process execution, bubblewrap, git, GitHub and HTTP calls, signals: effects of the operating system.
- `support_package.py` and `full_product.py`: long equality checks against fixed constants; delivery gives the same theorem.
- Command lines, provider adapters, demo runners, configuration, registries, routing and traceability tables: wrappers or single-branch claims.
- Secret and credential patterns: a catalogue of regular expressions, here one arbitrary predicate.
