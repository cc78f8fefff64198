/** Review findings: intake, reconciliation, the fixer gate and verification, from
    `assurance/findings.py`, `assurance/reconcile.py` and `assurance/fixer_gate.py`. */
module Findings {
  import opened Json
  import opened Common

  datatype Status = PROPOSED | ACCEPTED | REJECTED | DUPLICATE | PRODUCT_DECISION_REQUIRED | FIXED | VERIFIED

  datatype Decider = Reconciliation | Policy | Owner(name: string)

  /** The part of a report that review fixes once and for all. `title` is already case-folded. */
  datatype Report = Report(
    candidate: string, file: string, line: int, title: string, lowSeverity: bool, mechanical: bool,
    productDecision: bool)

  datatype Finding = Finding(
    report: Report,
    status: Status,
    duplicateOf: Option<nat>,
    decidedBy: Option<Decider>,
    fixedBy: Option<string>,
    verifiedBy: Option<string>)

  /** Finding number `n + 1` is at index `n`; numbers are never reused. */
  type Store = seq<Finding>

  datatype Key = Key(file: string, line: int, title: string)

  function KeyOf(f: Finding): Key { Key(f.report.file, f.report.line, f.report.title) }

  // ----- the lifecycle -----

  predicate Move(a: Status, b: Status) {
    || (a == PROPOSED && b in {ACCEPTED, REJECTED, DUPLICATE, PRODUCT_DECISION_REQUIRED})
    || (a == ACCEPTED && b == FIXED)
    || (a == FIXED && b == VERIFIED)
  }

  /** One finding after any number of lifecycle moves. */
  predicate Follows(a: Status, b: Status) {
    a == b || Move(a, b) || (a == PROPOSED && b in {FIXED, VERIFIED}) || (a == ACCEPTED && b == VERIFIED)
  }

  predicate Named(d: Option<Decider>) { d.Some? && (d.value.Owner? ==> !Blank(d.value.name)) }

  /** What the fields of a finding say at each status. */
  predicate Documented(f: Finding) {
    && (f.status != PROPOSED ==> Named(f.decidedBy))
    && (f.status in {FIXED, VERIFIED} ==> f.fixedBy.Some?)
    && (f.status == VERIFIED ==> f.verifiedBy.Some? && f.verifiedBy != f.fixedBy)
    && (f.status == DUPLICATE <==> f.duplicateOf.Some?)
  }

  ghost predicate Valid(s: Store) { forall i :: 0 <= i < |s| ==> Documented(s[i]) }

  ghost predicate FirstOfKey(s: Store, j: nat)
    requires j < |s|
  {
    forall m {:trigger KeyOf(s[m])} :: 0 <= m < j ==> KeyOf(s[m]) != KeyOf(s[j])
  }

  /** A duplicate points to the first finding with its key, which is not itself a duplicate. */
  ghost predicate Linked(s: Store, i: nat)
    requires i < |s|
  {
    s[i].status == DUPLICATE ==>
      && s[i].duplicateOf.Some?
      && var j := s[i].duplicateOf.value;
         j < i && KeyOf(s[j]) == KeyOf(s[i]) && s[j].status != DUPLICATE && FirstOfKey(s, j)
  }

  ghost predicate DuplicatesLinked(s: Store) { forall i {:trigger Linked(s, i)} :: 0 <= i < |s| ==> Linked(s, i) }

  /** Nothing is lost: reports stay, statuses follow the lifecycle, links and deciders stay once set. */
  ghost predicate Evolves(s: Store, t: Store) {
    |s| <= |t| && forall i :: 0 <= i < |s| ==>
      && t[i].report == s[i].report && Follows(s[i].status, t[i].status)
      && (s[i].status != PROPOSED ==> t[i].decidedBy == s[i].decidedBy && t[i].duplicateOf == s[i].duplicateOf)
  }

  lemma EvolvesTransitive(s: Store, t: Store, u: Store)
    requires Evolves(s, t) && Evolves(t, u)
    ensures Evolves(s, u)
  {
  }

  // ----- single moves -----

  function Decided(f: Finding, status: Status, who: Decider, duplicateOf: Option<nat>): Finding {
    f.(status := status, decidedBy := Some(who), duplicateOf := duplicateOf)
  }

  /** `set_status` on a proposed finding: refused without a named decider and a reason. */
  predicate MayDecide(who: Decider, reason: string) { Named(Some(who)) && !Blank(reason) }

  // ----- reconciliation -----

  datatype OwnerDecision = OwnerDecision(accept: bool, owner: string, reason: string)

  type Decisions = map<nat, OwnerDecision>

  datatype Lists = Lists(accepted: seq<nat>, rejected: seq<nat>, duplicates: seq<nat>, productDecisions: seq<nat>,
    undecided: seq<nat>)

  /** The loop's state; `ok` turns false when `set_status` raises. */
  datatype Progress = Progress(store: Store, seen: map<Key, nat>, lists: Lists, ok: bool)

  function Tally(l: Lists, i: nat, status: Status): Lists {
    match status
    case ACCEPTED => l.(accepted := l.accepted + [i])
    case REJECTED => l.(rejected := l.rejected + [i])
    case DUPLICATE => l.(duplicates := l.duplicates + [i])
    case PRODUCT_DECISION_REQUIRED => l.(productDecisions := l.productDecisions + [i])
    case PROPOSED => l.(undecided := l.undecided + [i])
    case _ => l
  }

  function Verdict(decisions: Decisions, i: nat, f: Finding): Option<(Status, Decider)> {
    if f.report.productDecision then Some((PRODUCT_DECISION_REQUIRED, Reconciliation))
    else if i in decisions then
      var d := decisions[i];
      if MayDecide(Owner(d.owner), d.reason) then Some((if d.accept then ACCEPTED else REJECTED, Owner(d.owner)))
        else None
    else if f.report.lowSeverity && f.report.mechanical then Some((ACCEPTED, Policy))
    else Some((PROPOSED, Policy))
  }

  /** One turn of `reconcile`. */
  function Turn(decisions: Decisions, p: Progress, i: nat): Progress
    requires i < |p.store|
  {
    var f := p.store[i];
    var key := KeyOf(f);
    if f.status != PROPOSED then
      p.(lists := Tally(p.lists, i, f.status), seen := if key in p.seen then p.seen else p.seen[key := i])
    else if key in p.seen then
      p.(store := p.store[i := Decided(f, DUPLICATE, Reconciliation, Some(p.seen[key]))],
         lists := Tally(p.lists, i, DUPLICATE))
    else match Verdict(decisions, i, f)
      case None => p.(ok := false)
      case Some((status, who)) =>
        p.(store := if status == PROPOSED then p.store else p.store[i := Decided(f, status, who, None)],
           lists := Tally(p.lists, i, status),
           seen := p.seen[key := i])
  }

  const NO_LISTS := Lists([], [], [], [], [])

  function Reconciled(decisions: Decisions, s: Store, order: seq<nat>, k: nat): (p: Progress)
    requires k <= |order| && forall i :: i in order ==> i < |s|
    ensures |p.store| == |s|
  {
    if k == 0 then Progress(s, map[], NO_LISTS, true)
    else
      var before := Reconciled(decisions, s, order, k - 1);
      assert order[k - 1] in order;
      if before.ok then Turn(decisions, before, order[k - 1]) else before
  }

  // ----- the store -----

  class FindingsStore {
    var findings: Store

    constructor ()
      ensures findings == []
    {
      findings := [];
    }

    /** `intake`: all reports must concern the one frozen candidate; new findings are numbered on. */
    method Intake(candidate: string, reports: seq<Report>) returns (ok: bool)
      requires forall r :: r in reports ==> r.candidate == candidate
      modifies this
      ensures ok <==> forall f :: f in old(findings) ==> f.report.candidate == candidate
      ensures !ok ==> findings == old(findings)
      ensures ok ==> |findings| == |old(findings)| + |reports| && findings[..|old(findings)|] == old(findings)
      ensures ok ==> forall i :: 0 <= i < |reports| ==> findings[|old(findings)| + i] == New(reports[i])
      ensures Performs(old(findings), IntakeOp(candidate, reports), findings)
    {
      for i := 0 to |findings|
        invariant findings == old(findings) && forall k :: 0 <= k < i ==> findings[k].report.candidate == candidate
      {
        if findings[i].report.candidate != candidate { return false; }
      }
      for i := 0 to |reports|
        invariant |findings| == |old(findings)| + i && findings[..|old(findings)|] == old(findings)
        invariant forall k :: 0 <= k < i ==> findings[|old(findings)| + k] == New(reports[k])
      {
        findings := findings + [New(reports[i])];
      }
      ok := true;
      assert findings == old(findings) + seq(|reports|, i requires 0 <= i < |reports| => New(reports[i]));
    }

    /** `reconcile`, over the findings in the order the store lists them. */
    method Reconcile(decisions: Decisions, order: seq<nat>) returns (ok: bool, lists: Lists)
      requires forall i :: i in order ==> i < |findings|
      modifies this
      ensures var p := Reconciled(decisions, old(findings), order, |order|);
              findings == p.store && ok == p.ok && lists == p.lists
      ensures Performs(old(findings), ReconcileOp(decisions, order), findings)
    {
      var seen: map<Key, nat> := map[];
      lists, ok := NO_LISTS, true;
      var k := 0;
      while k < |order| && ok
        invariant k <= |order| && |findings| == |old(findings)|
        invariant Progress(findings, seen, lists, ok) == Reconciled(decisions, old(findings), order, k)
      {
        assert order[k] in order;
        var p := Turn(decisions, Progress(findings, seen, lists, ok), order[k]);
        findings, seen, lists, ok := p.store, p.seen, p.lists, p.ok;
        k := k + 1;
      }
      StoppedStays(decisions, old(findings), order, k, |order|);
    }

    /** `FixerGate.record_fix`: only an accepted finding, and only files inside the granted scope. */
    method RecordFix(i: nat, fixer: string, changed: set<string>, extra: set<string>) returns (ok: bool)
      modifies this
      ensures ok <==>
                && i < |old(findings)| && old(findings)[i].status == ACCEPTED
                && changed <= AllowedFiles(old(findings), extra)
      ensures findings ==
              if ok then old(findings)[i := old(findings)[i].(status := FIXED, fixedBy := Some(fixer))]
              else old(findings)
      ensures Performs(old(findings), FixOp(i, fixer, changed, extra), findings)
    {
      ok := i < |findings| && findings[i].status == ACCEPTED && changed <= AllowedFiles(findings, extra);
      if ok { findings := findings[i := findings[i].(status := FIXED, fixedBy := Some(fixer))]; }
    }

    /** `record_verified`: a fixed finding, and never by its fixer. */
    method RecordVerified(i: nat, verifier: string) returns (ok: bool)
      modifies this
      ensures ok <==>
                && i < |old(findings)| && old(findings)[i].status == FIXED
                && old(findings)[i].fixedBy != Some(verifier)
      ensures findings ==
              if ok then old(findings)[i := old(findings)[i].(status := VERIFIED, verifiedBy := Some(verifier))]
              else old(findings)
      ensures Performs(old(findings), VerifyOp(i, verifier), findings)
    {
      ok := i < |findings| && findings[i].status == FIXED && findings[i].fixedBy != Some(verifier);
      if ok { findings := findings[i := findings[i].(status := VERIFIED, verifiedBy := Some(verifier))]; }
    }
  }

  function New(r: Report): Finding { Finding(r, PROPOSED, None, None, None, None) }

  predicate Granted(f: Finding) { f.status in {ACCEPTED, FIXED, VERIFIED} }

  /** `FixerGate.scope`: the files the fixer may touch. */
  function AllowedFiles(s: Store, extra: set<string>): (r: set<string>)
    ensures forall file :: file in r <==>
              || file in extra
              || (file != "" && exists i :: 0 <= i < |s| && s[i].report.file == file
                                            && s[i].status in {ACCEPTED, FIXED, VERIFIED})
  {
    (set i | 0 <= i < |s| && Granted(s[i]) && s[i].report.file != "" :: s[i].report.file) + extra
  }

  lemma {:induction false} StoppedStays(decisions: Decisions, s: Store, order: seq<nat>, k: nat, n: nat)
    requires k <= n <= |order| && (forall i :: i in order ==> i < |s|)
    requires k == n || !Reconciled(decisions, s, order, k).ok
    ensures Reconciled(decisions, s, order, n) == Reconciled(decisions, s, order, k)
  {
    if k < n { StoppedStays(decisions, s, order, k, n - 1); }
  }

  // ----- what a reconciliation decides -----

  /** Finding `order[k]` is visited for the first time in turn `k`. */
  ghost predicate Fresh(order: seq<nat>, k: nat)
    requires k < |order|
  {
    order[k] !in order[..k]
  }

  lemma NotBefore(order: seq<nat>, b: nat)
    requires b < |order| && Distinct(order)
    ensures order[b] !in order[..b]
  {
  }

  /** A finding that is not proposed any more, or not visited yet, is where it was. */
  lemma {:induction false} Waiting(decisions: Decisions, s: Store, order: seq<nat>, k: nat, i: nat)
    requires k <= |order| && (forall j :: j in order ==> j < |s|) && i < |s|
    requires s[i].status != PROPOSED || i !in order[..k]
    ensures Reconciled(decisions, s, order, k).store[i] == s[i]
  {
    if k > 0 {
      assert order[k - 1] in order && order[..k] == order[..k - 1] + [order[k - 1]];
      Waiting(decisions, s, order, k - 1, i);
    }
  }

  lemma TurnKeepsReports(decisions: Decisions, p: Progress, k: nat, i: nat)
    requires k < |p.store| && i < |p.store|
    ensures |Turn(decisions, p, k).store| == |p.store| && Turn(decisions, p, k).store[i].report == p.store[i].report
  {
  }

  lemma {:induction false} ReportsStay(decisions: Decisions, s: Store, order: seq<nat>, k: nat, i: nat)
    requires k <= |order| && (forall j :: j in order ==> j < |s|) && i < |s|
    ensures Reconciled(decisions, s, order, k).store[i].report == s[i].report
  {
    if k > 0 {
      var before := Reconciled(decisions, s, order, k - 1);
      ReportsStay(decisions, s, order, k - 1, i);
      assert order[k - 1] in order;
      if before.ok { TurnKeepsReports(decisions, before, order[k - 1], i); }
    }
  }

  /** Before turn `k`, the first listed finding with the key, if any is listed by then. */
  ghost predicate FirstListed(s: Store, order: seq<nat>, k: nat, key: Key, original: Option<nat>)
    requires k <= |order| && forall i :: i in order ==> i < |s|
  {
    match original
    case None => forall a :: 0 <= a < k ==> order[a] in order && KeyOf(s[order[a]]) != key
    case Some(j) => exists a :: 0 <= a < k && order[a] == j && ListedFirst(s, order, a, key)
  }

  /** Finding `order[a]` is the first listed one with the key. */
  ghost predicate ListedFirst(s: Store, order: seq<nat>, a: nat, key: Key)
    requires a < |order| && forall i :: i in order ==> i < |s|
  {
    && order[a] in order && KeyOf(s[order[a]]) == key
    && forall b :: 0 <= b < a ==> order[b] in order && KeyOf(s[order[b]]) != key
  }

  function Lookup(seen: map<Key, nat>, key: Key): Option<nat> { if key in seen then Some(seen[key]) else None }

  /** What the loop has seen is the first listed finding of each key. */
  lemma {:induction false} SeenIsFirst(decisions: Decisions, s: Store, order: seq<nat>, k: nat, key: Key)
    requires k <= |order| && (forall i :: i in order ==> i < |s|) && Reconciled(decisions, s, order, k).ok
    ensures FirstListed(s, order, k, key, Lookup(Reconciled(decisions, s, order, k).seen, key))
  {
    if k > 0 {
      assert order[k - 1] in order;
      OkBefore(decisions, s, order, k - 1);
      var before := Reconciled(decisions, s, order, k - 1);
      SeenIsFirst(decisions, s, order, k - 1, key);
      ReportsStay(decisions, s, order, k - 1, order[k - 1]);
      TurnSees(decisions, before, order[k - 1], key);
      if key !in before.seen && KeyOf(s[order[k - 1]]) == key { assert ListedFirst(s, order, k - 1, key); }
    }
  }

  /** A turn adds the key of the visited finding, if it is new. */
  lemma TurnSees(decisions: Decisions, p: Progress, i: nat, key: Key)
    requires i < |p.store| && Turn(decisions, p, i).ok && p.ok
    ensures Lookup(Turn(decisions, p, i).seen, key) ==
            if key in p.seen then Some(p.seen[key]) else if KeyOf(p.store[i]) == key then Some(i) else None
  {
  }

  lemma OkBefore(decisions: Decisions, s: Store, order: seq<nat>, k: nat)
    requires k < |order| && (forall i :: i in order ==> i < |s|) && Reconciled(decisions, s, order, k + 1).ok
    ensures Reconciled(decisions, s, order, k).ok
  {
  }

  /** What becomes of proposed finding `i`, given the first listed one with its key. */
  predicate Outcome(decisions: Decisions, i: nat, f: Finding, original: Option<nat>, g: Finding) {
    match original
    case Some(j) => g == f.(status := DUPLICATE, decidedBy := Some(Reconciliation), duplicateOf := Some(j))
    case None =>
      if f.report.productDecision then
        g == f.(status := PRODUCT_DECISION_REQUIRED, decidedBy := Some(Reconciliation), duplicateOf := None)
      else if i in decisions && decisions[i].accept then
        g == f.(status := ACCEPTED, decidedBy := Some(Owner(decisions[i].owner)), duplicateOf := None)
      else if i in decisions then
        g == f.(status := REJECTED, decidedBy := Some(Owner(decisions[i].owner)), duplicateOf := None)
      else if f.report.lowSeverity && f.report.mechanical then
        g == f.(status := ACCEPTED, decidedBy := Some(Policy), duplicateOf := None)
      else g == f
  }

  lemma TurnDecides(decisions: Decisions, p: Progress, i: nat)
    requires i < |p.store| && p.store[i].status == PROPOSED && p.ok && Turn(decisions, p, i).ok
    ensures Outcome(decisions, i, p.store[i], Lookup(p.seen, KeyOf(p.store[i])), Turn(decisions, p, i).store[i])
  {
  }

  lemma {:induction false} VisitedStays(decisions: Decisions, s: Store, order: seq<nat>, k: nat, n: nat, i: nat)
    requires k <= n <= |order| && (forall j :: j in order ==> j < |s|) && i < |s|
    requires forall m :: k <= m < n ==> order[m] != i
    ensures Reconciled(decisions, s, order, n).store[i] == Reconciled(decisions, s, order, k).store[i]
  {
    if k < n {
      VisitedStays(decisions, s, order, k, n - 1, i);
      assert order[n - 1] in order;
    }
  }

  lemma {:induction false} OkThroughout(decisions: Decisions, s: Store, order: seq<nat>, k: nat, n: nat)
    requires k <= n <= |order| && (forall i :: i in order ==> i < |s|) && Reconciled(decisions, s, order, n).ok
    ensures Reconciled(decisions, s, order, k).ok
  {
    if k < n {
      OkBefore(decisions, s, order, n - 1);
      OkThroughout(decisions, s, order, k, n - 1);
    }
  }

  /** What a reconciliation decides: each listed finding that was proposed has its outcome, given the first
      listed finding with its key; every other finding is untouched. */
  lemma ReconcileDecides(decisions: Decisions, s: Store, order: seq<nat>, k: nat)
    requires (forall i :: i in order ==> i < |s|) && Distinct(order) && k < |order| && order[k] in order
    requires Reconciled(decisions, s, order, |order|).ok
    ensures var i, t := order[k], Reconciled(decisions, s, order, |order|).store;
            if s[i].status != PROPOSED then t[i] == s[i]
            else exists original ::
              FirstListed(s, order, k, KeyOf(s[i]), original) && Outcome(decisions, i, s[i], original, t[i])
  {
    var i := order[k];
    if s[i].status != PROPOSED {
      Waiting(decisions, s, order, |order|, i);
    } else {
      var before := Reconciled(decisions, s, order, k);
      OkThroughout(decisions, s, order, k + 1, |order|);
      OkBefore(decisions, s, order, k);
      NotBefore(order, k);
      Waiting(decisions, s, order, k, i);
      SeenIsFirst(decisions, s, order, k, KeyOf(s[i]));
      TurnDecides(decisions, before, i);
      VisitedStays(decisions, s, order, k + 1, |order|, i);
    }
  }

  /** Turn `k` reaches an owner decision that lacks a name or a reason. */
  ghost predicate BadDecision(decisions: Decisions, s: Store, order: seq<nat>, k: nat)
    requires k < |order| && forall i :: i in order ==> i < |s|
  {
    && order[k] in order && s[order[k]].status == PROPOSED && !s[order[k]].report.productDecision
    && FirstListed(s, order, k, KeyOf(s[order[k]]), None)
    && order[k] in decisions && (Blank(decisions[order[k]].owner) || Blank(decisions[order[k]].reason))
  }

  lemma TurnStopsIff(decisions: Decisions, p: Progress, i: nat)
    requires i < |p.store| && p.ok
    ensures !Turn(decisions, p, i).ok <==>
              && p.store[i].status == PROPOSED && !p.store[i].report.productDecision && KeyOf(p.store[i]) !in p.seen
              && i in decisions && (Blank(decisions[i].owner) || Blank(decisions[i].reason))
  {
  }

  lemma OkStep(decisions: Decisions, s: Store, order: seq<nat>, k: nat)
    requires k < |order| && (forall i :: i in order ==> i < |s|) && Distinct(order) && order[k] in order
    requires Reconciled(decisions, s, order, k).ok
    ensures Reconciled(decisions, s, order, k + 1).ok <==> !BadDecision(decisions, s, order, k)
  {
    var before, i := Reconciled(decisions, s, order, k), order[k];
    NotBefore(order, k);
    Waiting(decisions, s, order, k, i);
    SeenIsFirst(decisions, s, order, k, KeyOf(s[i]));
    TurnStopsIff(decisions, before, i);
    SeenIffListed(s, order, k, KeyOf(s[i]), Lookup(before.seen, KeyOf(s[i])));
  }

  /** The loop stops exactly at a decision it reaches that lacks a name or a reason. */
  lemma {:induction false} ReconcileOkIff(decisions: Decisions, s: Store, order: seq<nat>, k: nat)
    requires k <= |order| && (forall i :: i in order ==> i < |s|) && Distinct(order)
    ensures Reconciled(decisions, s, order, k).ok <==> forall m :: 0 <= m < k ==> !BadDecision(decisions, s, order, m)
  {
    if k > 0 {
      ReconcileOkIff(decisions, s, order, k - 1);
      assert order[k - 1] in order;
      if Reconciled(decisions, s, order, k - 1).ok { OkStep(decisions, s, order, k - 1); }
    }
  }

  lemma SeenIffListed(s: Store, order: seq<nat>, k: nat, key: Key, original: Option<nat>)
    requires k <= |order| && (forall i :: i in order ==> i < |s|) && FirstListed(s, order, k, key, original)
    ensures original.None? <==> FirstListed(s, order, k, key, None)
  {
  }

  // ----- what reconciliation keeps -----

  /** What a turn makes of the finding it visits. */
  lemma VisitedEvolves(decisions: Decisions, p: Progress, i: nat)
    requires i < |p.store| && Documented(p.store[i])
    ensures var q := Turn(decisions, p, i);
            && |q.store| == |p.store| && Documented(q.store[i]) && q.store[i].report == p.store[i].report
            && Follows(p.store[i].status, q.store[i].status)
            && (p.store[i].status != PROPOSED ==> q.store[i] == p.store[i])
  {
  }

  lemma OthersStay(decisions: Decisions, p: Progress, i: nat)
    requires i < |p.store|
    ensures |Turn(decisions, p, i).store| == |p.store|
    ensures forall j :: 0 <= j < |p.store| && j != i ==> Turn(decisions, p, i).store[j] == p.store[j]
  {
  }

  lemma TurnEvolves(decisions: Decisions, p: Progress, i: nat)
    requires i < |p.store| && Valid(p.store)
    ensures Valid(Turn(decisions, p, i).store) && Evolves(p.store, Turn(decisions, p, i).store)
  {
    VisitedEvolves(decisions, p, i);
    OthersStay(decisions, p, i);
  }

  lemma {:induction false} ReconcileEvolves(decisions: Decisions, s: Store, order: seq<nat>, k: nat)
    requires Valid(s) && k <= |order| && forall i :: i in order ==> i < |s|
    ensures Valid(Reconciled(decisions, s, order, k).store) && Evolves(s, Reconciled(decisions, s, order, k).store)
  {
    if k > 0 {
      ReconcileEvolves(decisions, s, order, k - 1);
      var before := Reconciled(decisions, s, order, k - 1);
      assert order[k - 1] in order;
      if before.ok {
        TurnEvolves(decisions, before, order[k - 1]);
        EvolvesTransitive(s, before.store, Turn(decisions, before, order[k - 1]).store);
      }
    }
  }

  function ListOf(l: Lists, status: Status): seq<nat> {
    match status
    case ACCEPTED => l.accepted
    case REJECTED => l.rejected
    case DUPLICATE => l.duplicates
    case PRODUCT_DECISION_REQUIRED => l.productDecisions
    case PROPOSED => l.undecided
    case _ => []
  }

  predicate Listed(status: Status) { status != FIXED && status != VERIFIED }

  /** Among the findings already visited, each list holds exactly those of its status, once each. */
  ghost predicate Sorted(p: Progress, visited: seq<nat>, status: Status) {
    && Distinct(ListOf(p.lists, status))
    && forall i {:trigger i in ListOf(p.lists, status)} {:trigger i in visited} ::
         i in ListOf(p.lists, status) <==> i in visited && i < |p.store| && p.store[i].status == status
  }

  /** A turn leaves the other findings alone and appends the visited one to the list of its new status. */
  lemma TurnPlaces(decisions: Decisions, p: Progress, i: nat, status: Status)
    requires i < |p.store| && Listed(status) && Turn(decisions, p, i).ok
    ensures var q := Turn(decisions, p, i);
            && |q.store| == |p.store|
            && (forall j :: 0 <= j < |p.store| && j != i ==> q.store[j] == p.store[j])
            && ListOf(q.lists, status) == ListOf(p.lists, status) + if q.store[i].status == status then [i] else []
  {
  }

  lemma TurnSorts(p: Progress, q: Progress, visited: seq<nat>, i: nat, status: Status)
    requires i < |p.store| == |q.store| && i !in visited && Sorted(p, visited, status)
    requires forall j :: 0 <= j < |p.store| && j != i ==> q.store[j] == p.store[j]
    requires ListOf(q.lists, status) == ListOf(p.lists, status) + if q.store[i].status == status then [i] else []
    ensures Sorted(q, visited + [i], status)
  {
  }

  lemma OneListMore(decisions: Decisions, s: Store, order: seq<nat>, k: nat, status: Status)
    requires 0 < k <= |order| && (forall i :: i in order ==> i < |s|) && Fresh(order, k - 1) && Listed(status)
    requires Reconciled(decisions, s, order, k).ok
    requires SortedAfter(decisions, s, order, k - 1, status)
    ensures SortedAfter(decisions, s, order, k, status)
  {
    var before, i := Reconciled(decisions, s, order, k - 1), order[k - 1];
    assert i in order && order[..k] == order[..k - 1] + [i];
    TurnPlaces(decisions, before, i, status);
    TurnSorts(before, Turn(decisions, before, i), order[..k - 1], i, status);
  }

  /** The lists are sorted after `k` turns, if none of them stopped the loop. */
  ghost predicate SortedAfter(decisions: Decisions, s: Store, order: seq<nat>, k: nat, status: Status)
    requires k <= |order| && forall i :: i in order ==> i < |s|
  {
    Reconciled(decisions, s, order, k).ok ==> Sorted(Reconciled(decisions, s, order, k), order[..k], status)
  }

  lemma {:induction false} SortedThroughout(decisions: Decisions, s: Store, order: seq<nat>, k: nat, status: Status)
    requires k <= |order| && (forall i :: i in order ==> i < |s|) && Listed(status)
    requires forall m :: 0 <= m < |order| ==> Fresh(order, m)
    ensures SortedAfter(decisions, s, order, k, status)
  {
    if k > 0 {
      SortedThroughout(decisions, s, order, k - 1, status);
      if Reconciled(decisions, s, order, k).ok { OneListMore(decisions, s, order, k, status); }
    }
  }

  /** Each finding ends in exactly the list of its new status: a finding that was PROPOSED is in one
      of the five lists and in no other. */
  lemma EveryFindingInOneList(decisions: Decisions, s: Store, order: seq<nat>, k: nat, status: Status)
    requires k <= |order| && (forall i :: i in order ==> i < |s|) && Distinct(order) && Listed(status)
    requires Reconciled(decisions, s, order, k).ok
    ensures Sorted(Reconciled(decisions, s, order, k), order[..k], status)
  {
    forall m | 0 <= m < |order| ensures Fresh(order, m) { NotBefore(order, m); }
    SortedThroughout(decisions, s, order, k, status);
  }

  // ----- duplicate links -----

  /** The findings in the order of their numbers. */
  function Numbers(n: nat): (r: seq<nat>)
    ensures |r| == n && forall i :: 0 <= i < n ==> r[i] == i
  {
    if n == 0 then [] else Numbers(n - 1) + [n - 1]
  }

  /** After `k` findings in number order, `seen` names the first finding of each key met so far. */
  ghost predicate SeenFirst(p: Progress, k: nat) {
    && k <= |p.store|
    && (forall i :: 0 <= i < k ==> KeyOf(p.store[i]) in p.seen)
    && forall key :: key in p.seen ==>
         p.seen[key] < k && KeyOf(p.store[p.seen[key]]) == key && p.store[p.seen[key]].status != DUPLICATE
         && FirstOfKey(p.store, p.seen[key])
  }

  lemma NewKeyIsFirst(p: Progress, k: nat)
    requires k < |p.store| && DuplicatesLinked(p.store) && SeenFirst(p, k) && KeyOf(p.store[k]) !in p.seen
    ensures FirstOfKey(p.store, k) && p.store[k].status != DUPLICATE
  {
    assert Linked(p.store, k);
  }

  /** A turn changes only the finding it visits, and never its report. */
  ghost predicate OnlyAt(s: Store, t: Store, k: nat) {
    |s| == |t| && forall i :: 0 <= i < |s| ==> t[i].report == s[i].report && (i != k ==> t[i] == s[i])
  }

  lemma SameFirst(s: Store, t: Store, k: nat, j: nat)
    requires OnlyAt(s, t, k) && j < |s| && FirstOfKey(s, j)
    ensures FirstOfKey(t, j)
  {
    assert forall i :: 0 <= i < |s| ==> KeyOf(t[i]) == KeyOf(s[i]);
  }

  /** The finding a link ends at after a turn: for a new duplicate the first of its key, else as before. */
  lemma LinkTarget(decisions: Decisions, p: Progress, k: nat, i: nat) returns (j: nat)
    requires k < |p.store| && i < |p.store| && DuplicatesLinked(p.store) && SeenFirst(p, k)
    requires Turn(decisions, p, k).ok && Turn(decisions, p, k).store[i].status == DUPLICATE
    ensures Turn(decisions, p, k).store[i].duplicateOf == Some(j)
    ensures j < i && KeyOf(p.store[j]) == KeyOf(p.store[i]) && p.store[j].status != DUPLICATE && FirstOfKey(p.store, j)
    ensures j == k ==> KeyOf(p.store[k]) !in p.seen
  {
    var key := KeyOf(p.store[k]);
    assert Linked(p.store, i);
    assert key in p.seen ==> p.seen[key] < k && KeyOf(p.store[p.seen[key]]) == key;
    j := if i == k && p.store[k].status == PROPOSED then p.seen[key] else p.store[i].duplicateOf.value;
  }

  lemma TurnKeepsLink(decisions: Decisions, p: Progress, k: nat, i: nat)
    requires k < |p.store| && i < |p.store| && DuplicatesLinked(p.store) && SeenFirst(p, k) && Turn(decisions, p, k).ok
    ensures Linked(Turn(decisions, p, k).store, i)
  {
    var t := Turn(decisions, p, k).store;
    assert OnlyAt(p.store, t, k);
    if t[i].status == DUPLICATE {
      var j := LinkTarget(decisions, p, k, i);
      SameFirst(p.store, t, k, j);
    }
  }

  /** A key known after a turn was known before it, or is that of the visited finding. */
  lemma SeenAfterTurn(decisions: Decisions, p: Progress, k: nat, key: Key)
    requires k < |p.store| && SeenFirst(p, k) && Turn(decisions, p, k).ok && key in Turn(decisions, p, k).seen
    ensures var q := Turn(decisions, p, k);
            if key in p.seen then
              q.seen[key] == p.seen[key] && q.store[p.seen[key]].status == p.store[p.seen[key]].status
            else
              key == KeyOf(p.store[k]) && q.seen[key] == k
              && (p.store[k].status != DUPLICATE ==> q.store[k].status != DUPLICATE)
  {
  }

  lemma TurnKeepsSeen(decisions: Decisions, p: Progress, k: nat, key: Key)
    requires k < |p.store| && DuplicatesLinked(p.store) && SeenFirst(p, k) && Turn(decisions, p, k).ok
    requires key in Turn(decisions, p, k).seen
    ensures var q := Turn(decisions, p, k); var j := q.seen[key];
            j < k + 1 && KeyOf(q.store[j]) == key && q.store[j].status != DUPLICATE && FirstOfKey(q.store, j)
  {
    var q := Turn(decisions, p, k);
    assert OnlyAt(p.store, q.store, k);
    SeenAfterTurn(decisions, p, k, key);
    if key !in p.seen { NewKeyIsFirst(p, k); }
    SameFirst(p.store, q.store, k, q.seen[key]);
  }

  lemma TurnKeepsLinks(decisions: Decisions, p: Progress, k: nat)
    requires k < |p.store| && DuplicatesLinked(p.store) && SeenFirst(p, k) && Turn(decisions, p, k).ok
    ensures DuplicatesLinked(Turn(decisions, p, k).store) && SeenFirst(Turn(decisions, p, k), k + 1)
  {
    var q := Turn(decisions, p, k);
    assert OnlyAt(p.store, q.store, k);
    forall i | 0 <= i < |q.store| ensures Linked(q.store, i) { TurnKeepsLink(decisions, p, k, i); }
    forall key | key in q.seen
      ensures q.seen[key] < k + 1 && KeyOf(q.store[q.seen[key]]) == key && q.store[q.seen[key]].status != DUPLICATE
              && FirstOfKey(q.store, q.seen[key])
    {
      TurnKeepsSeen(decisions, p, k, key);
    }
  }

  /** Duplicates are linked, and what the loop has seen are the first findings of their keys. */
  ghost predicate LinkedSoFar(p: Progress, k: nat) { DuplicatesLinked(p.store) && (p.ok ==> SeenFirst(p, k)) }

  lemma StoppedTurn(decisions: Decisions, p: Progress, k: nat)
    requires k < |p.store| && !Turn(decisions, p, k).ok && p.ok
    ensures Turn(decisions, p, k).store == p.store
  {
  }

  lemma LinksAfterTurn(decisions: Decisions, p: Progress, k: nat)
    requires k < |p.store| && p.ok && LinkedSoFar(p, k)
    ensures LinkedSoFar(Turn(decisions, p, k), k + 1)
  {
    if Turn(decisions, p, k).ok { TurnKeepsLinks(decisions, p, k); } else { StoppedTurn(decisions, p, k); }
  }

  lemma LinkedAtFirst(s: Store)
    requires DuplicatesLinked(s)
    ensures LinkedSoFar(Progress(s, map[], NO_LISTS, true), 0)
  {
  }

  lemma LinkedOneMore(decisions: Decisions, s: Store, order: seq<nat>, k: nat)
    requires k < |order| == |s| && (forall i :: i in order ==> i < |s|) && order[k] == k
    requires LinkedSoFar(Reconciled(decisions, s, order, k), k)
    ensures LinkedSoFar(Reconciled(decisions, s, order, k + 1), k + 1)
  {
    var before := Reconciled(decisions, s, order, k);
    if before.ok { LinksAfterTurn(decisions, before, k); }
  }

  lemma {:induction false} LinkedThroughout(decisions: Decisions, s: Store, order: seq<nat>, k: nat)
    requires DuplicatesLinked(s) && k <= |order| == |s| && forall i :: 0 <= i < |s| ==> order[i] == i
    ensures forall i :: i in order ==> i < |s|
    ensures LinkedSoFar(Reconciled(decisions, s, order, k), k)
  {
    if k == 0 {
      LinkedAtFirst(s);
    } else {
      LinkedThroughout(decisions, s, order, k - 1);
      LinkedOneMore(decisions, s, order, k - 1);
    }
  }

  lemma ReconcileKeepsLinks(decisions: Decisions, s: Store, k: nat)
    requires DuplicatesLinked(s) && k <= |s|
    ensures DuplicatesLinked(Reconciled(decisions, s, Numbers(|s|), k).store)
    ensures Reconciled(decisions, s, Numbers(|s|), k).ok ==> SeenFirst(Reconciled(decisions, s, Numbers(|s|), k), k)
  {
    LinkedThroughout(decisions, s, Numbers(|s|), k);
  }

  // ----- the order in which the store lists its findings -----

  function Digit(n: nat): char
    requires n < 10
  {
    "0123456789"[n]
  }

  function Decimal(n: nat): string { if n < 10 then [Digit(n)] else Decimal(n / 10) + [Digit(n % 10)] }

  /** The number in a finding's name, padded to three digits. */
  function Padded(n: nat): string {
    if n < 1000 then [Digit(n / 100), Digit(n / 10 % 10), Digit(n % 10)] else Decimal(n)
  }

  /** The order of the listed names. */
  ghost predicate Before(i: nat, j: nat) { TextLess(Padded(i + 1), Padded(j + 1)) }

  ghost predicate Rising(order: seq<nat>) { forall a, b :: 0 <= a < b < |order| ==> Before(order[a], order[b]) }

  /** Findings are listed by file name, `RF-` and the padded number, compared as text. */
  ghost predicate Listing(order: seq<nat>, n: nat) {
    |order| == n && (forall i :: i in order <==> 0 <= i < n) && Rising(order)
  }

  // ----- every store has a listing -----

  function DigitValue(c: char): nat { if '0' <= c <= '9' then c as nat - '0' as nat else 0 }

  function NumberOf(s: string): nat { if s == "" then 0 else 10 * NumberOf(s[..|s| - 1]) + DigitValue(s[|s| - 1]) }

  lemma DigitRoundTrip(n: nat)
    requires n < 10
    ensures DigitValue(Digit(n)) == n
  {
  }

  lemma NumberOfAppend(s: string, c: char)
    ensures NumberOf(s + [c]) == 10 * NumberOf(s) + DigitValue(c)
  {
    assert (s + [c])[..|s|] == s;
  }

  lemma {:induction false} DecimalRoundTrip(n: nat)
    ensures NumberOf(Decimal(n)) == n
  {
    DigitRoundTrip(n % 10);
    if n < 10 {
      NumberOfAppend("", Digit(n));
      assert "" + [Digit(n)] == Decimal(n);
    } else {
      DecimalRoundTrip(n / 10);
      NumberOfAppend(Decimal(n / 10), Digit(n % 10));
    }
  }

  /** A finding's name gives back its number, so distinct findings have distinct names. */
  lemma PaddedRoundTrip(n: nat)
    ensures NumberOf(Padded(n)) == n
  {
    if n < 1000 {
      var a, b, c := n / 100, n / 10 % 10, n % 10;
      Positional(n);
      DigitRoundTrip(a);
      DigitRoundTrip(b);
      DigitRoundTrip(c);
      NumberOfAppend("", Digit(a));
      NumberOfAppend([Digit(a)], Digit(b));
      NumberOfAppend([Digit(a), Digit(b)], Digit(c));
      assert "" + [Digit(a)] == [Digit(a)] && [Digit(a)] + [Digit(b)] == [Digit(a), Digit(b)];
      assert [Digit(a), Digit(b)] + [Digit(c)] == Padded(n);
    } else {
      DecimalRoundTrip(n);
    }
  }

  lemma NamesApart(m: nat, n: nat)
    requires Padded(m) == Padded(n)
    ensures m == n
  {
    PaddedRoundTrip(m);
    PaddedRoundTrip(n);
  }

  lemma BeforeAsymmetric(i: nat, j: nat)
    ensures !(Before(i, j) && Before(j, i)) && (i == j ==> !Before(i, j))
  {
    TextLessTotal(Padded(i + 1), Padded(j + 1));
  }

  lemma BeforeConnected(i: nat, j: nat)
    requires Padded(i + 1) != Padded(j + 1)
    ensures Before(i, j) || Before(j, i)
  {
    TextLessTotal(Padded(i + 1), Padded(j + 1));
  }

  lemma BeforeTotal(i: nat, j: nat)
    ensures i != j ==> Before(i, j) || Before(j, i)
    ensures !(Before(i, j) && Before(j, i)) && (i == j ==> !Before(i, j))
  {
    BeforeAsymmetric(i, j);
    if Padded(i + 1) == Padded(j + 1) { NamesApart(i + 1, j + 1); } else { BeforeConnected(i, j); }
  }

  lemma BeforeTransitive(i: nat, j: nat, k: nat)
    requires Before(i, j) && Before(j, k)
    ensures Before(i, k)
  {
    TextLessTransitive(Padded(i + 1), Padded(j + 1), Padded(k + 1));
  }

  /** Where a new finding belongs in a listing. */
  lemma {:induction false} PlaceFor(order: seq<nat>, x: nat) returns (p: nat)
    requires Rising(order) && x !in order
    ensures p <= |order|
    ensures (forall a :: 0 <= a < p ==> Before(order[a], x)) && forall a :: p <= a < |order| ==> Before(x, order[a])
  {
    if order == [] { return 0; }
    BeforeTotal(order[0], x);
    if Before(x, order[0]) {
      p := 0;
      forall a | 0 < a < |order| ensures Before(x, order[a]) { BeforeTransitive(x, order[0], order[a]); }
    } else {
      var q := PlaceFor(order[1..], x);
      p := q + 1;
      forall a | 0 <= a < p ensures Before(order[a], x) { if a > 0 { assert order[a] == order[1..][a - 1]; } }
      forall a | p <= a < |order| ensures Before(x, order[a]) { assert order[a] == order[1..][a - 1]; }
    }
  }

  function Inserted(order: seq<nat>, x: nat, p: nat): (r: seq<nat>)
    requires p <= |order|
    ensures |r| == |order| + 1
    ensures forall a :: 0 <= a < |r| ==> r[a] == if a < p then order[a] else if a == p then x else order[a - 1]
  {
    order[..p] + [x] + order[p..]
  }

  lemma InsertedHolds(order: seq<nat>, x: nat, p: nat, i: nat)
    requires p <= |order|
    ensures i in Inserted(order, x, p) <==> i in order || i == x
  {
    assert order == order[..p] + order[p..];
  }

  lemma InsertRises(order: seq<nat>, x: nat, p: nat)
    requires Rising(order) && p <= |order|
    requires (forall a :: 0 <= a < p ==> Before(order[a], x)) && forall a :: p <= a < |order| ==> Before(x, order[a])
    ensures Rising(Inserted(order, x, p))
  {
  }

  lemma LongerListing(shorter: seq<nat>, n: nat) returns (order: seq<nat>)
    requires Listing(shorter, n)
    ensures Listing(order, n + 1)
  {
    var p := PlaceFor(shorter, n);
    order := Inserted(shorter, n, p);
    InsertRises(shorter, n, p);
    forall i: nat ensures i in order <==> i < n + 1 { InsertedHolds(shorter, n, p, i); }
  }

  lemma {:induction false} ListingExists(n: nat) returns (order: seq<nat>)
    ensures Listing(order, n)
  {
    if n == 0 { return []; }
    var shorter := ListingExists(n - 1);
    order := LongerListing(shorter, n - 1);
  }

  lemma DigitsOrdered(a: nat, b: nat)
    requires a < 10 && b < 10
    ensures Digit(a) < Digit(b) <==> a < b
    ensures Digit(a) == Digit(b) <==> a == b
  {
  }

  lemma ThreeDigits(a: string, b: string)
    requires |a| == 3 && |b| == 3
    ensures TextLess(a, b) <==> a[0] < b[0] || (a[0] == b[0] && (a[1] < b[1] || (a[1] == b[1] && a[2] < b[2])))
  {
    assert a[1..][1..] == [a[2]] && b[1..][1..] == [b[2]];
    assert TextLess([a[2]], [b[2]]) <==> a[2] < b[2] by { assert [a[2]][1..] == "" && [b[2]][1..] == ""; }
  }

  /** Up to number 999 the listing compares numbers. */
  lemma SmallNumbersInOrder(i: nat, j: nat)
    requires i < 1000 && j < 1000
    ensures TextLess(Padded(i), Padded(j)) <==> i < j
  {
    ThreeDigits(Padded(i), Padded(j));
    DigitsOrdered(i / 100, j / 100);
    DigitsOrdered(i / 10 % 10, j / 10 % 10);
    DigitsOrdered(i % 10, j % 10);
    Positional(i);
    Positional(j);
    DigitwiseLess(i / 100, i / 10 % 10, i % 10, j / 100, j / 10 % 10, j % 10);
  }

  lemma Positional(n: nat)
    ensures n == 100 * (n / 100) + 10 * (n / 10 % 10) + n % 10
  {
    assert n / 10 / 10 == n / 100;
  }

  lemma DigitwiseLess(a: nat, b: nat, c: nat, x: nat, y: nat, z: nat)
    requires b < 10 && c < 10 && y < 10 && z < 10
    ensures 100 * a + 10 * b + c < 100 * x + 10 * y + z <==> a < x || (a == x && (b < y || (b == y && c < z)))
  {
  }

  lemma {:induction false} IncreasingIsAbove(order: seq<nat>, k: nat)
    requires k < |order| && forall a, b :: 0 <= a < b < |order| ==> order[a] < order[b]
    ensures order[k] >= k && |order| - k <= order[|order| - 1] - order[k] + 1
    decreases k
  {
    if k > 0 { IncreasingIsAbove(order, k - 1); }
    IncreasingGap(order, k);
  }

  lemma {:induction false} IncreasingGap(order: seq<nat>, k: nat)
    requires k < |order| && forall a, b :: 0 <= a < b < |order| ==> order[a] < order[b]
    ensures |order| - k <= order[|order| - 1] - order[k] + 1
    decreases |order| - k
  {
    if k < |order| - 1 { IncreasingGap(order, k + 1); }
  }

  lemma SmallListingRises(order: seq<nat>, n: nat, a: nat, b: nat)
    requires Listing(order, n) && n <= 999 && a < b < |order|
    ensures order[a] < order[b]
  {
    assert order[a] in order && order[b] in order && Before(order[a], order[b]);
    SmallNumbersInOrder(order[a] + 1, order[b] + 1);
  }

  /** An increasing list of `n` numbers below `n` holds them all in order. */
  lemma IncreasingIsNumbers(order: seq<nat>)
    requires forall a, b :: 0 <= a < b < |order| ==> order[a] < order[b]
    requires order != [] ==> order[|order| - 1] < |order|
    ensures order == Numbers(|order|)
  {
    forall k | 0 <= k < |order| ensures order[k] == k { IncreasingIsAbove(order, k); }
  }

  lemma SmallListingIsNumeric(order: seq<nat>, n: nat)
    requires Listing(order, n) && n <= 999
    ensures order == Numbers(n)
  {
    forall a, b | 0 <= a < b < |order| ensures order[a] < order[b] { SmallListingRises(order, n, a, b); }
    if n > 0 { assert order[n - 1] in order; }
    IncreasingIsNumbers(order);
  }

  /** From number 1000 on it does not: 1000 is listed before 101. */
  lemma LargeNumbersOutOfOrder()
    ensures TextLess(Padded(1000), Padded(101))
  {
    assert Decimal(1) == "1" && Decimal(10) == "10" && Decimal(100) == "100" && Decimal(1000) == "1000";
    assert "1000"[1..] == "000" && "101"[1..] == "01" && "000"[1..] == "00" && "01"[1..] == "1";
    assert TextLess("00", "1") && TextLess("000", "01");
  }

  /** An undecided original that is listed after a finding with its key becomes a duplicate itself. */
  lemma ListedLateTurnsDuplicate(s: Store, order: seq<nat>, a: nat, b: nat, j: nat, i: nat)
    requires (forall m :: m in order ==> m < |s|) && a < b < |order| && Distinct(order)
    requires i < |s| && j < |s| && order[a] == j && order[b] == i
    requires s[i].status == PROPOSED && KeyOf(s[j]) == KeyOf(s[i])
    ensures Reconciled(map[], s, order, |order|).store[i].status == DUPLICATE
  {
    ReconcileOkIff(map[], s, order, |order|);
    assert order[a] in order && order[b] in order;
    ReconcileDecides(map[], s, order, b);
    assert !FirstListed(s, order, b, KeyOf(s[i]), None);
  }

  /** Number 1000 is listed before number 101. */
  lemma LateListed(order: seq<nat>, n: nat) returns (a: nat, b: nat)
    requires Listing(order, n) && n >= 1000
    ensures a < b < |order| && order[a] == 999 && order[b] == 100
  {
    a := PlaceOf(order, n, 999);
    b := PlaceOf(order, n, 100);
    LargeNumbersOutOfOrder();
    BeforeTotal(100, 999);
    if b < a { RisingPair(order, b, a); }
  }

  lemma RisingPair(order: seq<nat>, a: nat, b: nat)
    requires Rising(order) && a < b < |order|
    ensures Before(order[a], order[b])
  {
  }

  lemma PlaceOf(order: seq<nat>, n: nat, i: nat) returns (a: nat)
    requires Listing(order, n) && i < n
    ensures a < |order| && order[a] == i
  {
    assert i in order;
    a :| 0 <= a < |order| && order[a] == i;
  }

  lemma ListingDistinct(order: seq<nat>, n: nat)
    requires Listing(order, n)
    ensures Distinct(order)
  {
    forall a, b | 0 <= a < b < |order| ensures order[a] != order[b] { BeforeTotal(order[a], order[b]); }
  }

  // ----- every interleaving -----

  datatype Op =
    | IntakeOp(candidate: string, reports: seq<Report>)
    | ReconcileOp(decisions: Decisions, order: seq<nat>)
    | FixOp(i: nat, fixer: string, changed: set<string>, extra: set<string>)
    | VerifyOp(i: nat, verifier: string)

  ghost predicate Legal(s: Store, op: Op) {
    match op
    case IntakeOp(candidate, reports) => forall r :: r in reports ==> r.candidate == candidate
    case ReconcileOp(_, order) => Listing(order, |s|)
    case _ => true
  }

  /** What the store's methods leave behind. */
  ghost predicate Performs(s: Store, op: Op, t: Store) {
    match op
    case IntakeOp(_, reports) => t == s || t == s + seq(|reports|, i requires 0 <= i < |reports| => New(reports[i]))
    case ReconcileOp(decisions, order) => (forall i :: i in order ==> i < |s|)
      && t == Reconciled(decisions, s, order, |order|).store
    case FixOp(i, fixer, _, _) => t == s
      || (i < |s| && s[i].status == ACCEPTED && t == s[i := s[i].(status := FIXED, fixedBy := Some(fixer))])
    case VerifyOp(i, verifier) =>
      t == s || (i < |s| && s[i].status == FIXED && s[i].fixedBy != Some(verifier)
                 && t == s[i := s[i].(status := VERIFIED, verifiedBy := Some(verifier))])
  }

  lemma OpKeepsLifecycle(s: Store, op: Op, t: Store)
    requires Valid(s) && Legal(s, op) && Performs(s, op, t)
    ensures Valid(t) && Evolves(s, t)
  {
    if op.ReconcileOp? { ReconcileEvolves(op.decisions, s, op.order, |op.order|); }
  }

  lemma OpKeepsLinks(s: Store, op: Op, t: Store)
    requires DuplicatesLinked(s) && Legal(s, op) && Performs(s, op, t) && |s| <= 999
    ensures DuplicatesLinked(t)
  {
    if op.ReconcileOp? {
      SmallListingIsNumeric(op.order, |s|);
      ReconcileKeepsLinks(op.decisions, s, |s|);
    } else {
      forall i | 0 <= i < |t| ensures Linked(t, i) {
        if i < |s| && s[i].status == DUPLICATE {
          assert Linked(s, i);
          var j := s[i].duplicateOf.value;
          assert FirstOfKey(t, j) by { assert forall m :: 0 <= m < |s| ==> KeyOf(t[m]) == KeyOf(s[m]); }
        }
      }
    }
  }

  /** A run: each store follows from the one before by a legal operation, starting empty. */
  ghost predicate Run(stores: seq<Store>, ops: seq<Op>) {
    && |stores| == |ops| + 1 && stores[0] == []
    && forall k :: 0 <= k < |ops| ==> Does(stores[k], ops[k], stores[k + 1])
  }

  ghost predicate Does(s: Store, op: Op, t: Store) { Legal(s, op) && Performs(s, op, t) }

  /** Over every interleaving of intake, reconciliation, gated fixes and verification: all findings are
      documented, statuses only move along the lifecycle, and the fixer's files never shrink. */
  lemma {:induction false} LifecycleOverRuns(stores: seq<Store>, ops: seq<Op>, m: nat, n: nat)
    requires Run(stores, ops) && m <= n < |stores|
    ensures Valid(stores[n]) && Evolves(stores[m], stores[n])
    ensures forall extra :: AllowedFiles(stores[m], extra) <= AllowedFiles(stores[n], extra)
    decreases n
  {
    if n > 0 {
      LifecycleOverRuns(stores, ops, if m < n then m else 0, n - 1);
      assert Does(stores[n - 1], ops[n - 1], stores[n]);
      OpKeepsLifecycle(stores[n - 1], ops[n - 1], stores[n]);
      if m < n { EvolvesTransitive(stores[m], stores[n - 1], stores[n]); }
    }
    ScopeGrows(stores[m], stores[n]);
  }

  lemma ScopeGrows(s: Store, t: Store)
    requires Evolves(s, t)
    ensures forall extra :: AllowedFiles(s, extra) <= AllowedFiles(t, extra)
  {
    forall extra, file | file in AllowedFiles(s, extra) && file !in extra ensures file in AllowedFiles(t, extra) {
      var i :| 0 <= i < |s| && Granted(s[i]) && s[i].report.file != "" && s[i].report.file == file;
      assert Granted(t[i]) && t[i].report.file == file;
    }
  }

  /** As long as the store holds at most 999 findings, every duplicate links to a non-duplicate with
      the same file, line and title. */
  lemma {:induction false} LinksOverRuns(stores: seq<Store>, ops: seq<Op>, n: nat)
    requires Run(stores, ops) && n < |stores| && |stores[n]| <= 999
    ensures DuplicatesLinked(stores[n])
  {
    if n > 0 {
      LifecycleOverRuns(stores, ops, n - 1, n);
      LinksOverRuns(stores, ops, n - 1);
      assert Does(stores[n - 1], ops[n - 1], stores[n]);
      OpKeepsLinks(stores[n - 1], ops[n - 1], stores[n]);
    }
  }

  // ----- and beyond 999 -----

  /** The reports of the failing run: the first hundred on lines of their own, all others alike. */
  function ReportAt(k: nat): Report { Report("", "", if k < 100 then k + 1 else 0, "", false, false, false) }

  function ReportsFrom(k: nat, n: nat): (r: seq<Report>)
    ensures |r| == n && forall i :: 0 <= i < n ==> r[i] == ReportAt(k + i)
  {
    seq(n, i requires 0 <= i < n => ReportAt(k + i))
  }

  function Taken(k: nat, n: nat): Store { seq(n, i requires 0 <= i < n => New(ReportsFrom(k, n)[i])) }

  /** After intake of 102 reports and one reconciliation, finding 102 is a duplicate of the open 101. */
  lemma FirstHalf(s: Store, t: Store)
    requires s == Taken(0, 102) && t == Reconciled(map[], s, Numbers(102), 102).store
    ensures |t| == 102 && t[100].status == PROPOSED && t[101].status == DUPLICATE && t[101].duplicateOf == Some(100)
    ensures t[100].report == ReportAt(100)
  {
    var order := Numbers(102);
    assert forall i :: 0 <= i < 102 ==> s[i] == New(ReportAt(i));
    assert DuplicatesLinked(s) by { forall i | 0 <= i < |s| ensures Linked(s, i) {} }
    ListedLateTurnsDuplicate(s, order, 100, 101, 100, 101);
    ReconcileKeepsLinks(map[], s, 102);
    assert Linked(t, 101) && Linked(t, 100);
    var j := t[101].duplicateOf.value;
    forall m | 0 <= m < 102 ensures t[m].report == ReportAt(m) { ReportsStay(map[], s, order, 102, m); }
    ReconcileOkIff(map[], s, order, 102);
    assert order[100] in order;
    ReconcileDecides(map[], s, order, 100);
    FirstOpen(t, j);
  }

  lemma FirstOpen(t: Store, j: nat)
    requires |t| == 102 && (forall m :: 0 <= m < 102 ==> t[m].report == ReportAt(m))
    requires j < 101 && KeyOf(t[j]) == KeyOf(t[101])
    requires Linked(t, 100) && t[100].status in {PROPOSED, DUPLICATE}
    ensures j == 100 && t[100].status == PROPOSED
  {
    assert t[j].report == ReportAt(j) && t[101].report == ReportAt(101);
    assert t[100].report == ReportAt(100);
    assert forall i :: 0 <= i < 100 ==> KeyOf(t[i]) != KeyOf(t[100]);
  }

  lemma IntakeTakes(s: Store, k: nat, n: nat)
    ensures Legal(s, IntakeOp("", ReportsFrom(k, n))) && Performs(s, IntakeOp("", ReportsFrom(k, n)), s + Taken(k, n))
  {
    var reports := ReportsFrom(k, n);
    assert Taken(k, n) == seq(|reports|, i requires 0 <= i < |reports| => New(reports[i]));
  }

  /** A second intake and the next reconciliation turn 101 into a duplicate of 1000. */
  lemma SecondHalf(t: Store, u: Store, v: Store, order: seq<nat>, n: nat)
    requires |t| == 102 && t[100].status == PROPOSED && t[101].status == DUPLICATE && t[101].duplicateOf == Some(100)
    requires t[100].report == ReportAt(100) && n >= 1000 && Listing(order, n)
    requires u == t + Taken(102, n - 102) && v == Reconciled(map[], u, order, n).store
    ensures |v| == n && !DuplicatesLinked(v)
  {
    var a, b := LateListed(order, n);
    ListingDistinct(order, n);
    assert u[999] == New(ReportAt(999)) && u[100] == t[100] && u[101] == t[101];
    ListedLateTurnsDuplicate(u, order, a, b, 999, 100);
    Waiting(map[], u, order, n, 101);
    assert !Linked(v, 101);
  }

  /** Every run that ends with `n` findings ends with its duplicates linked. */
  ghost predicate RunsKeepLinks(n: nat) {
    forall stores, ops :: Run(stores, ops) && |stores[|stores| - 1]| == n ==> DuplicatesLinked(stores[|stores| - 1])
  }

  lemma BreakingRun(n: nat) returns (stores: seq<Store>, ops: seq<Op>)
    requires n >= 1000
    ensures Run(stores, ops) && |stores[|stores| - 1]| == n && !DuplicatesLinked(stores[|stores| - 1])
  {
    var first := ListingExists(102);
    SmallListingIsNumeric(first, 102);
    var order := ListingExists(n);
    var s := Taken(0, 102);
    var t := Reconciled(map[], s, Numbers(102), 102).store;
    FirstHalf(s, t);
    var u := t + Taken(102, n - 102);
    var v := Reconciled(map[], u, order, n).store;
    SecondHalf(t, u, v, order, n);
    stores := [[], s, t, u, v];
    ops := [IntakeOp("", ReportsFrom(0, 102)), ReconcileOp(map[], Numbers(102)),
      IntakeOp("", ReportsFrom(102, n - 102)), ReconcileOp(map[], order)];
    assert [] + s == s;
    IntakeTakes([], 0, 102);
    IntakeTakes(t, 102, n - 102);
    RunOfFour(stores, ops);
  }

  lemma RunOfFour(stores: seq<Store>, ops: seq<Op>)
    requires |stores| == 5 && |ops| == 4 && stores[0] == []
    requires Does(stores[0], ops[0], stores[1]) && Does(stores[1], ops[1], stores[2])
    requires Does(stores[2], ops[2], stores[3]) && Does(stores[3], ops[3], stores[4])
    ensures Run(stores, ops)
  {
  }

  /** Over all runs, the duplicates end linked to non-duplicates exactly up to 999 findings. */
  lemma LinksKeptIffSmall(n: nat)
    ensures RunsKeepLinks(n) <==> n <= 999
  {
    if n <= 999 {
      forall stores, ops | Run(stores, ops) && |stores[|stores| - 1]| == n
        ensures DuplicatesLinked(stores[|stores| - 1]) {
        LinksOverRuns(stores, ops, |stores| - 1);
      }
    } else {
      var stores, ops := BreakingRun(n);
    }
  }
}
