/** Capability bindings and the criterion closure of `barebones_selection.py`: a worklist over the
    graph criterion -> requirement -> criterion, with one visited set shared by all bindings. */
module CriterionClosure {
  import opened Json
  import opened Common

  /** A raw acceptance criterion. None stands for a field of the wrong type; `shaped` says that the
      value is an object with exactly the three admitted fields. */
  datatype Criterion = Criterion(shaped: bool, statement: Option<string>, verifier: Option<string>,
    requirements: Option<seq<Option<string>>>)

  /** A raw functional requirement. `sound` sums up the checks that do not look at the graph. */
  datatype Requirement = Requirement(sound: bool, criteria: Option<seq<Option<string>>>)

  datatype Contract = Contract(criteria: map<string, Criterion>, requirements: map<string, Requirement>)

  predicate IdChar(c: char) { 'A' <= c <= 'Z' || '0' <= c <= '9' }

  /** `AC-` and then dash-separated, non-empty runs of capitals and digits. */
  predicate CriterionId(s: string) {
    "AC-" <= s && forall part :: part in Split(s[3..], '-') ==> part != "" && forall c :: c in part ==> IdChar(c)
  }

  // ----- what the code checks of one criterion -----

  predicate WellFormed(c: Criterion) {
    c.shaped && c.statement.Some? && !Blank(c.statement.value) && c.verifier.Some? && !Blank(c.verifier.value)
  }

  predicate RefsOk(k: Contract, c: Criterion) {
    && c.requirements.Some? && c.requirements.value != [] && Distinct(c.requirements.value)
    && forall r :: r in c.requirements.value ==> r.Some? && r.value in k.requirements
  }

  /** `_validate_functional_requirement`: sound, and it names the criterion that names it. */
  predicate RequirementOk(k: Contract, r: Requirement, id: string) {
    && r.sound && r.criteria.Some? && r.criteria.value != [] && Some(id) in r.criteria.value
    && Distinct(r.criteria.value)
    && forall c :: c in r.criteria.value ==> c.Some? && CriterionId(c.value) && c.value in k.criteria
  }

  /** Everything the worklist checks of a criterion it visits. */
  predicate NodeOk(k: Contract, id: string) {
    && id in k.criteria && WellFormed(k.criteria[id]) && RefsOk(k, k.criteria[id])
    && forall r :: r in k.criteria[id].requirements.value ==> RequirementOk(k, k.requirements[r.value], id)
  }

  /** One step of the graph: some requirement of `a` lists `b`. */
  predicate Linked(k: Contract, a: string, b: string) {
    && a in k.criteria && k.criteria[a].requirements.Some?
    && exists r :: r in k.criteria[a].requirements.value && r.Some? && r.value in k.requirements
                   && k.requirements[r.value].criteria.Some? && Some(b) in k.requirements[r.value].criteria.value
  }

  ghost predicate Path(k: Contract, p: seq<string>) {
    |p| > 0 && forall i :: 0 <= i < |p| - 1 ==> Linked(k, p[i], p[i + 1])
  }

  ghost predicate Reachable(k: Contract, root: string, x: string) {
    exists p: seq<string> :: Path(k, p) && p[0] == root && p[|p| - 1] == x
  }

  lemma ReachableSelf(k: Contract, root: string)
    ensures Reachable(k, root, root)
  {
    assert Path(k, [root]) && [root][0] == root;
  }

  lemma ReachableStep(k: Contract, root: string, x: string, y: string)
    requires Reachable(k, root, x) && Linked(k, x, y)
    ensures Reachable(k, root, y)
  {
    var p :| Path(k, p) && p[0] == root && p[|p| - 1] == x;
    var q := p + [y];
    assert Path(k, q) && q[0] == root && q[|q| - 1] == y;
  }

  /** A set of good criteria that contains all its successors contains everything reachable from it. */
  ghost predicate ClosedGood(k: Contract, s: set<string>) {
    (forall x :: x in s ==> NodeOk(k, x)) && forall x, y :: x in s && Linked(k, x, y) ==> y in s
  }

  lemma {:induction false} PathStaysInside(k: Contract, s: set<string>, p: seq<string>)
    requires ClosedGood(k, s) && Path(k, p) && p[0] in s
    ensures p[|p| - 1] in s
  {
    if |p| > 1 {
      assert Linked(k, p[0], p[1]);
      var q := p[1..];
      forall i | 0 <= i < |q| - 1 ensures Linked(k, q[i], q[i + 1]) { assert Linked(k, p[i + 1], p[i + 2]); }
      PathStaysInside(k, s, q);
    }
  }

  lemma ClosedCoversReachable(k: Contract, s: set<string>, root: string, x: string)
    requires ClosedGood(k, s) && root in s && Reachable(k, root, x)
    ensures x in s
  {
    var p :| Path(k, p) && p[0] == root && p[|p| - 1] == x;
    PathStaysInside(k, s, p);
  }

  // ----- the worklist -----

  datatype Pending = Pending(id: string, required: Option<string>)

  /** The checks made every time a criterion is popped, visited or not. */
  predicate PopOk(k: Contract, p: Pending) {
    p.id in k.criteria && WellFormed(k.criteria[p.id]) && (p.required.Some? ==> k.criteria[p.id].verifier == p.required)
  }

  function Pushed(refs: seq<Option<string>>): (r: seq<Pending>)
    requires forall c :: c in refs ==> c.Some?
    ensures forall p :: p in r <==> p.required == None && Some(p.id) in refs
  {
    if refs == [] then [] else Pushed(refs[1..]) + [Pending(refs[0].value, None)]
  }

  ghost predicate Waits(pending: seq<Pending>, id: string) { exists p :: p in pending && p.id == id }

  /** Visited criteria are good, and their successors are visited or waiting. */
  ghost predicate Progress(k: Contract, visited: set<string>, pending: seq<Pending>) {
    (forall x :: x in visited ==> NodeOk(k, x))
    && forall x, y :: x in visited && Linked(k, x, y) ==> y in visited || Waits(pending, y)
  }

  /** The requirement loop: check each requirement, then queue the criteria it lists. */
  method Expand(k: Contract, id: string, pending: seq<Pending>) returns (ok: bool, queue: seq<Pending>)
    requires id in k.criteria && RefsOk(k, k.criteria[id])
    ensures ok <==> forall r :: r in k.criteria[id].requirements.value ==> RequirementOk(k, k.requirements[r.value], id)
    ensures ok ==> forall p :: p in pending ==> p in queue
    ensures ok ==> forall p :: p in queue ==> p in pending || (p.required == None && Linked(k, id, p.id))
    ensures ok ==> forall y :: Linked(k, id, y) ==> Waits(queue, y)
  {
    var refs := k.criteria[id].requirements.value;
    queue := pending;
    for j := 0 to |refs|
      invariant forall m :: 0 <= m < j ==> RequirementOk(k, k.requirements[refs[m].value], id)
      invariant forall p :: p in pending ==> p in queue
      invariant forall p :: p in queue ==> p in pending || (p.required == None && Linked(k, id, p.id))
      invariant forall m, c :: 0 <= m < j && c in k.requirements[refs[m].value].criteria.value ==> Waits(queue, c.value)
    {
      assert refs[j] in refs;
      var r := k.requirements[refs[j].value];
      if !RequirementOk(k, r, id) { return false, []; }
      var more := Pushed(r.criteria.value);
      forall p | p in more ensures Linked(k, id, p.id) { assert refs[j].Some? && Some(p.id) in r.criteria.value; }
      forall c | c in r.criteria.value ensures Waits(queue + more, c.value) {
        assert Pending(c.value, None) in queue + more;
      }
      forall x | Waits(queue, x) ensures Waits(queue + more, x) {
        var p :| p in queue && p.id == x;
        assert p in queue + more;
      }
      queue := queue + more;
    }
    ok := true;
    forall y | Linked(k, id, y) ensures Waits(queue, y) {
      var r :| r in refs && r.Some? && r.value in k.requirements && k.requirements[r.value].criteria.Some?
               && Some(y) in k.requirements[r.value].criteria.value;
      var m :| 0 <= m < |refs| && refs[m] == r;
      assert Some(y) in k.requirements[refs[m].value].criteria.value;
    }
  }

  /** Everything waiting was reached from the root, and only the root carries a required verifier. */
  ghost predicate FromRoot(k: Contract, root: Pending, pending: seq<Pending>) {
    forall p :: p in pending ==> Reachable(k, root.id, p.id) && (p == root || p.required == None)
  }

  /** A first visit. */
  method VisitNew(k: Contract, root: Pending, visited: set<string>, rest: seq<Pending>, current: Pending)
    returns (ok: bool, queue: seq<Pending>)
    requires Progress(k, visited, rest + [current]) && FromRoot(k, root, rest + [current])
    requires PopOk(k, current) && current.id !in visited
    ensures ok <==> NodeOk(k, current.id)
    ensures ok ==> Progress(k, visited + {current.id}, queue) && FromRoot(k, root, queue) && forall p :: p in rest ==>
            p in queue
  {
    if !RefsOk(k, k.criteria[current.id]) { return false, []; }
    ok, queue := Expand(k, current.id, rest);
    if ok {
      VisitProgress(k, visited, rest, current, queue);
      forall p | p in queue ensures Reachable(k, root.id, p.id) && (p == root || p.required == None) {
        if p in rest { assert p in rest + [current]; } else {
          assert current in rest + [current];
          ReachableStep(k, root.id, current.id, p.id);
        }
      }
    }
  }

  /** Something reachable from the criterion is not good. */
  ghost predicate BadBelow(k: Contract, id: string) { exists x :: Reachable(k, id, x) && !NodeOk(k, x) }

  /** `_validate_criterion_closure`. It stops; it accepts only with the root checked against its
      verifier and everything visited closed and good; it refuses only for a reason reachable from
      the root. */
  method ValidateClosure(k: Contract, id: string, required: Option<string>, seen: set<string>)
    returns (ok: bool, visited: set<string>)
    requires Progress(k, seen, [])
    ensures ok ==> seen <= visited && Progress(k, visited, []) && id in visited && PopOk(k, Pending(id, required))
    ensures !ok ==> !PopOk(k, Pending(id, required)) || BadBelow(k, id)
  {
    var root := Pending(id, required);
    var pending := [root];
    visited := seen;
    ReachableSelf(k, id);
    while pending != []
      invariant seen <= visited && Progress(k, visited, pending) && FromRoot(k, root, pending)
      invariant id in visited || root in pending
      invariant root in pending || PopOk(k, root)
      decreases |k.criteria.Keys - visited|, |pending|
    {
      var current, rest := pending[|pending| - 1], pending[..|pending| - 1];
      SplitLast(pending);
      if !PopOk(k, current) {
        RefusalHasReason(k, root, current);
        return false, visited;
      }
      if current.id in visited {
        PopVisited(k, visited, rest, current);
        pending := rest;
      } else {
        var good, queue := VisitNew(k, root, visited, rest, current);
        if !good {
          RefusalHasReason(k, root, current);
          return false, visited;
        }
        SubsetSize(k.criteria.Keys - (visited + {current.id}), k.criteria.Keys - visited);
        visited, pending := visited + {current.id}, queue;
      }
    }
    ok := true;
  }

  lemma SplitLast(pending: seq<Pending>)
    requires pending != []
    ensures var current, rest := pending[|pending| - 1], pending[..|pending| - 1];
            pending == rest + [current] && current in pending && forall p :: p in pending <==> p in rest || p == current
  {
  }

  lemma RefusalHasReason(k: Contract, root: Pending, current: Pending)
    requires Reachable(k, root.id, current.id) && (current == root || current.required == None)
    requires !PopOk(k, current) || !NodeOk(k, current.id)
    ensures !PopOk(k, root) || BadBelow(k, root.id)
  {
  }

  lemma PopVisited(k: Contract, visited: set<string>, rest: seq<Pending>, current: Pending)
    requires Progress(k, visited, rest + [current]) && current.id in visited
    ensures Progress(k, visited, rest)
  {
    forall x, y | x in visited && Linked(k, x, y) && y !in visited ensures Waits(rest, y) {
      var p :| p in rest + [current] && p.id == y;
      assert p in rest;
    }
  }

  lemma VisitProgress(k: Contract, visited: set<string>, rest: seq<Pending>, current: Pending, queue: seq<Pending>)
    requires Progress(k, visited, rest + [current]) && NodeOk(k, current.id)
    requires forall p :: p in rest ==> p in queue
    requires forall y :: Linked(k, current.id, y) ==> Waits(queue, y)
    ensures Progress(k, visited + {current.id}, queue)
  {
    forall x, y | x in visited + {current.id} && Linked(k, x, y) && y !in visited + {current.id}
      ensures Waits(queue, y) {
      if x in visited {
        var p :| p in rest + [current] && p.id == y;
        assert p in queue;
      }
    }
  }

  // ----- the bindings -----

  datatype Binding = Binding(shaped: bool, capability: Option<string>, verifier: Option<string>,
    criteria: Option<seq<Option<string>>>)

  /** What is checked of a binding before its criteria are walked. */
  predicate BindingOk(k: Contract, declared: set<string>, expected: string -> string, b: Binding) {
    && b.shaped && b.capability.Some? && b.capability.value in declared
    && b.verifier == Some(expected(b.capability.value))
    && b.criteria.Some? && b.criteria.value != [] && Distinct(b.criteria.value)
    && forall c :: c in b.criteria.value ==> c.Some? && CriterionId(c.value) && c.value in k.criteria
  }

  /** The criterion carries the verifier of the capability bound to it, and everything reachable from
      it is good. */
  ghost predicate BoundOk(k: Contract, b: Binding, id: string) {
    PopOk(k, Pending(id, b.verifier)) && forall x :: Reachable(k, id, x) ==> NodeOk(k, x)
  }

  ghost predicate BindingAccepted(k: Contract, b: Binding) {
    b.criteria.Some? && forall c :: c in b.criteria.value ==> c.Some? && BoundOk(k, b, c.value)
  }

  lemma ClosedIsEnough(k: Contract, visited: set<string>, b: Binding, id: string)
    requires Progress(k, visited, []) && id in visited && PopOk(k, Pending(id, b.verifier))
    ensures BoundOk(k, b, id)
  {
    assert ClosedGood(k, visited);
    forall x | Reachable(k, id, x) ensures NodeOk(k, x) { ClosedCoversReachable(k, visited, id, x); }
  }

  /** All criteria of one binding, the visited set carried along. */
  method ValidateBinding(k: Contract, b: Binding, seen: set<string>) returns (ok: bool, visited: set<string>)
    requires Progress(k, seen, []) && b.criteria.Some? && forall c :: c in b.criteria.value ==> c.Some?
    ensures ok <==> BindingAccepted(k, b)
    ensures ok ==> Progress(k, visited, [])
  {
    visited := seen;
    var ids := b.criteria.value;
    for i := 0 to |ids|
      invariant Progress(k, visited, [])
      invariant forall m :: 0 <= m < i ==> BoundOk(k, b, ids[m].value)
    {
      assert ids[i] in ids;
      ok, visited := ValidateClosure(k, ids[i].value, b.verifier, visited);
      if !ok { return; }
      ClosedIsEnough(k, visited, b, ids[i].value);
    }
    ok := true;
  }

  /** What the selection must satisfy. */
  ghost predicate Accepted(k: Contract, declared: set<string>, expected: string -> string, bindings: seq<Binding>) {
    && (forall i :: 0 <= i < |bindings| ==>
       BindingOk(k, declared, expected, bindings[i]) && BindingAccepted(k, bindings[i]))
    && (forall i, j :: 0 <= i < j < |bindings| ==> bindings[i].capability != bindings[j].capability)
    && (forall c :: c in declared ==> exists i :: 0 <= i < |bindings| && bindings[i].capability == Some(c))
  }

  /** The first `i` bindings are accepted and name the capabilities in `seen`, each once. */
  ghost predicate Checked(
    k: Contract, declared: set<string>, expected: string -> string, bindings: seq<Binding>, i: nat, seen: set<string>)
    requires i <= |bindings|
  {
    && (forall m :: 0 <= m < i ==> BindingOk(k, declared, expected, bindings[m]) && BindingAccepted(k, bindings[m]))
    && (forall m, n :: 0 <= m < n < i ==> bindings[m].capability != bindings[n].capability)
    && (forall m :: 0 <= m < i ==> bindings[m].capability.value in seen)
    && (forall c :: c in seen ==> c in declared && exists m :: 0 <= m < i && bindings[m].capability == Some(c))
  }

  lemma CheckedStep(
    k: Contract, declared: set<string>, expected: string -> string, bindings: seq<Binding>, i: nat, seen: set<string>)
    requires i < |bindings| && Checked(k, declared, expected, bindings, i, seen)
    requires BindingOk(k, declared, expected, bindings[i]) && BindingAccepted(k, bindings[i])
    requires bindings[i].capability.value !in seen
    ensures Checked(k, declared, expected, bindings, i + 1, seen + {bindings[i].capability.value})
  {
  }

  lemma AcceptedPasses(
    k: Contract, declared: set<string>, expected: string -> string, bindings: seq<Binding>, i: nat, seen: set<string>)
    requires i < |bindings| && Checked(k, declared, expected, bindings, i, seen)
    requires Accepted(k, declared, expected, bindings)
    ensures BindingOk(k, declared, expected, bindings[i]) && BindingAccepted(k, bindings[i])
    ensures bindings[i].capability.value !in seen
  {
  }

  lemma CheckedAll(
    k: Contract, declared: set<string>, expected: string -> string, bindings: seq<Binding>, seen: set<string>)
    requires Checked(k, declared, expected, bindings, |bindings|, seen)
    ensures seen == declared <==> Accepted(k, declared, expected, bindings)
  {
    if Accepted(k, declared, expected, bindings) {
      forall c | c in declared ensures c in seen {
        var i :| 0 <= i < |bindings| && bindings[i].capability == Some(c);
        assert bindings[i].capability.value in seen;
      }
    }
  }

  /** The binding loop of `_validate_capabilities`: it accepts exactly the selections whose bindings
      name each declared capability once, with its admitted verifier, whose bound criteria carry that
      verifier, visited before or not, and below which every criterion is good. */
  method ValidateCapabilities(k: Contract, declared: set<string>, expected: string -> string, bindings: seq<Binding>)
    returns (ok: bool)
    ensures ok <==> Accepted(k, declared, expected, bindings)
  {
    var seen: set<string>, visited: set<string> := {}, {};
    for i := 0 to |bindings|
      invariant Progress(k, visited, []) && Checked(k, declared, expected, bindings, i, seen)
    {
      var b := bindings[i];
      if Accepted(k, declared, expected, bindings) { AcceptedPasses(k, declared, expected, bindings, i, seen); }
      if !BindingOk(k, declared, expected, b) || b.capability.value in seen { return false; }
      var good: bool;
      good, visited := ValidateBinding(k, b, visited);
      if !good { return false; }
      CheckedStep(k, declared, expected, bindings, i, seen);
      seen := seen + {b.capability.value};
    }
    CheckedAll(k, declared, expected, bindings, seen);
    ok := seen == declared;
  }

  // ----- what acceptance says -----

  /** The criterion is reachable from a bound one. */
  ghost predicate Bound(k: Contract, bindings: seq<Binding>, x: string) {
    exists i, c :: 0 <= i < |bindings| && bindings[i].criteria.Some? && Some(c) in bindings[i].criteria.value
      && Reachable(k, c, x)
  }

  /** A criterion identifier is `AC-` and one or more runs of capitals and digits with dashes between them. */
  lemma CriterionIdIff(s: string)
    ensures CriterionId(s) <==> exists parts: seq<string> ::
                                && |parts| > 0 && s == "AC-" + Join(parts, '-')
                                && forall part :: part in parts ==> part != "" && forall c :: c in part ==> IdChar(c)
  {
    if CriterionId(s) {
      JoinOfSplit(s[3..], '-');
      assert s == "AC-" + s[3..];
    }
    if parts: seq<string> :|
        && |parts| > 0 && s == "AC-" + Join(parts, '-')
        && forall part :: part in parts ==> part != "" && forall c :: c in part ==> IdChar(c)
    {
      assert s[3..] == Join(parts, '-');
      SplitOfJoin(parts, '-');
    }
  }

  /** A binding of this shape names a declared capability, the verifier expected of it and known criteria, which
      carry that verifier. */
  predicate BindsKnown(k: Contract, declared: set<string>, expected: string -> string, b: Binding) {
    match b
    case Binding(true, Some(capability), Some(verifier), Some(ids)) =>
      && capability in declared && verifier == expected(capability)
      && |ids| > 0 && (forall i, j :: 0 <= i < j < |ids| ==> ids[i] != ids[j])
      && forall i :: 0 <= i < |ids| ==>
           && ids[i].Some? && CriterionId(ids[i].value) && ids[i].value in k.criteria
           && k.criteria[ids[i].value].verifier == Some(verifier)
    case _ => false
  }

  /** A criterion with a statement and a verifier, and requirements that each name it and known criteria. */
  predicate Covers(k: Contract, id: string) {
    id in k.criteria &&
    match k.criteria[id]
    case Criterion(true, Some(statement), Some(verifier), Some(refs)) =>
      && !Blank(statement) && !Blank(verifier)
      && |refs| > 0 && (forall i, j :: 0 <= i < j < |refs| ==> refs[i] != refs[j])
      && forall i :: 0 <= i < |refs| ==>
           refs[i].Some? && refs[i].value in k.requirements && Answers(k, k.requirements[refs[i].value], id)
    case _ => false
  }

  predicate Answers(k: Contract, r: Requirement, id: string) {
    match r
    case Requirement(true, Some(ids)) =>
      && (exists i :: 0 <= i < |ids| && ids[i] == Some(id))
      && (forall i, j :: 0 <= i < j < |ids| ==> ids[i] != ids[j])
      && forall i :: 0 <= i < |ids| ==>
           ids[i].Some? && CriterionId(ids[i].value) && ids[i].value in k.criteria
    case _ => false
  }

  lemma AnswersIff(k: Contract, r: Requirement, id: string)
    ensures RequirementOk(k, r, id) <==> Answers(k, r, id)
  {
  }

  lemma CoversIff(k: Contract, id: string)
    ensures NodeOk(k, id) <==> Covers(k, id)
  {
    forall r | r in k.requirements
      ensures RequirementOk(k, k.requirements[r], id) <==> Answers(k, k.requirements[r], id)
    {
      AnswersIff(k, k.requirements[r], id);
    }
  }

  /** A selection is accepted exactly when its bindings are known ones, no two of one capability and together of
      all, and every criterion reachable from a bound one is covered. */
  lemma AcceptedIff(k: Contract, declared: set<string>, expected: string -> string, bindings: seq<Binding>)
    ensures Accepted(k, declared, expected, bindings) <==>
            && (forall b :: b in bindings ==> BindsKnown(k, declared, expected, b))
            && (forall i, j :: 0 <= i < j < |bindings| ==> bindings[i].capability != bindings[j].capability)
            && (forall c :: c in declared ==> exists b :: b in bindings && b.capability == Some(c))
            && (forall x :: Bound(k, bindings, x) ==> Covers(k, x))
  {
    forall x ensures NodeOk(k, x) <==> Covers(k, x) { CoversIff(k, x); }
    if Accepted(k, declared, expected, bindings) {
      forall b | b in bindings ensures BindsKnown(k, declared, expected, b) {
        AcceptedBindsKnown(k, declared, expected, bindings, b);
      }
      forall x | Bound(k, bindings, x) ensures Covers(k, x) { BoundIsGood(k, declared, expected, bindings, x); }
    }
    if (forall b :: b in bindings ==> BindsKnown(k, declared, expected, b))
       && (forall x :: Bound(k, bindings, x) ==> Covers(k, x))
    {
      forall i | 0 <= i < |bindings|
        ensures BindingOk(k, declared, expected, bindings[i]) && BindingAccepted(k, bindings[i]) {
        KnownIsAccepted(k, declared, expected, bindings, i);
      }
    }
  }

  lemma AcceptedBindsKnown(
    k: Contract, declared: set<string>, expected: string -> string, bindings: seq<Binding>, b: Binding)
    requires Accepted(k, declared, expected, bindings) && b in bindings
    ensures BindsKnown(k, declared, expected, b)
  {
    forall i | 0 <= i < |b.criteria.value|
      ensures b.criteria.value[i].Some? && k.criteria[b.criteria.value[i].value].verifier == b.verifier {
      assert b.criteria.value[i] in b.criteria.value;
      assert BoundOk(k, b, b.criteria.value[i].value);
    }
  }

  lemma BoundIsGood(k: Contract, declared: set<string>, expected: string -> string, bindings: seq<Binding>, x: string)
    requires Accepted(k, declared, expected, bindings) && Bound(k, bindings, x)
    ensures NodeOk(k, x)
  {
    var i, c :| 0 <= i < |bindings| && bindings[i].criteria.Some? && Some(c) in bindings[i].criteria.value
      && Reachable(k, c, x);
    assert BoundOk(k, bindings[i], c);
  }

  lemma KnownIsAccepted(
    k: Contract, declared: set<string>, expected: string -> string, bindings: seq<Binding>, i: nat)
    requires i < |bindings| && BindsKnown(k, declared, expected, bindings[i])
    requires forall x :: Bound(k, bindings, x) ==> NodeOk(k, x)
    ensures BindingOk(k, declared, expected, bindings[i]) && BindingAccepted(k, bindings[i])
  {
    var b := bindings[i];
    forall c | c in b.criteria.value ensures c.Some? && BoundOk(k, b, c.value) {
      forall x | Reachable(k, c.value, x) ensures NodeOk(k, x) { assert Bound(k, bindings, x); }
      ReachableSelf(k, c.value);
      assert NodeOk(k, c.value);
    }
  }

  // ----- what acceptance says, and does not say, about links -----

  /** The criterion lists the requirement. */
  predicate Names(k: Contract, x: string, r: string) {
    x in k.criteria && k.criteria[x].requirements.Some? && Some(r) in k.criteria[x].requirements.value
  }

  /** The requirement lists the criterion. */
  predicate NamedBy(k: Contract, x: string, r: string) {
    r in k.requirements && k.requirements[r].criteria.Some? && Some(x) in k.requirements[r].criteria.value
  }

  ghost function Covered(k: Contract, bindings: seq<Binding>): set<string>
  {
    set x | x in k.criteria && Bound(k, bindings, x)
  }

  /** The requirements the covered criteria name. */
  ghost function Touched(k: Contract, covered: set<string>): set<string> {
    set r | r in k.requirements && exists x :: x in covered && Names(k, x, r)
  }

  /** The references from covered criteria to requirements, and back from those requirements. */
  ghost function CriterionRefs(k: Contract, covered: set<string>): set<(string, string)> {
    set x, r | x in covered && r in Touched(k, covered) && Names(k, x, r) :: (x, r)
  }

  ghost function RequirementRefs(k: Contract, covered: set<string>): set<(string, string)> {
    set x, r | x in k.criteria && r in Touched(k, covered) && NamedBy(k, x, r) :: (x, r)
  }

  /** Every link of a covered criterion, and of a requirement it names, is answered. */
  ghost predicate Mutual(k: Contract, covered: set<string>) {
    && (forall x, r :: x in covered && Names(k, x, r) ==> NamedBy(k, x, r))
    && (forall x, r :: r in Touched(k, covered) && NamedBy(k, x, r) ==> Names(k, x, r))
  }

  /** What a touched requirement lists is covered again. */
  lemma ListedIsCovered(k: Contract, declared: set<string>, expected: string -> string, bindings: seq<Binding>,
    x: string, r: string)
    requires Accepted(k, declared, expected, bindings) && r in Touched(k, Covered(k, bindings)) && NamedBy(k, x, r)
    ensures x in Covered(k, bindings)
  {
    var y :| y in Covered(k, bindings) && Names(k, y, r);
    BoundIsGood(k, declared, expected, bindings, y);
    assert Some(r) in k.criteria[y].requirements.value && RequirementOk(k, k.requirements[r], y);
    assert Linked(k, y, x);
    var i, c :| 0 <= i < |bindings| && bindings[i].criteria.Some? && Some(c) in bindings[i].criteria.value
      && Reachable(k, c, y);
    ReachableStep(k, c, y, x);
  }

  lemma NamedIsAnswered(
    k: Contract, declared: set<string>, expected: string -> string, bindings: seq<Binding>, x: string, r: string)
    requires Accepted(k, declared, expected, bindings) && x in Covered(k, bindings) && Names(k, x, r)
    ensures r in Touched(k, Covered(k, bindings)) && NamedBy(k, x, r)
  {
    BoundIsGood(k, declared, expected, bindings, x);
    assert Some(r) in k.criteria[x].requirements.value && RequirementOk(k, k.requirements[r], x);
  }

  /** What covered criteria name, names them back. */
  ghost predicate Answered(k: Contract, covered: set<string>) {
    forall x, r :: x in covered && Names(k, x, r) ==> r in Touched(k, covered) && NamedBy(k, x, r)
  }

  /** What touched requirements list, is covered. */
  ghost predicate Closed(k: Contract, covered: set<string>) {
    forall x, r :: r in Touched(k, covered) && NamedBy(k, x, r) ==> x in covered && x in k.criteria
  }

  /** With every reference one way answered, all are answered exactly when the two sets are the same. */
  lemma MutualIffSame(k: Contract, covered: set<string>)
    requires Answered(k, covered) && Closed(k, covered)
    ensures CriterionRefs(k, covered) <= RequirementRefs(k, covered)
    ensures Mutual(k, covered) <==> RequirementRefs(k, covered) <= CriterionRefs(k, covered)
  {
    var forth, back := CriterionRefs(k, covered), RequirementRefs(k, covered);
    if back <= forth {
      forall x, r | r in Touched(k, covered) && NamedBy(k, x, r) ensures Names(k, x, r) {
        assert (x, r) in back;
        assert (x, r) in forth;
      }
    }
    if Mutual(k, covered) {
      forall e | e in back ensures e in forth { assert Names(k, e.0, e.1); }
    }
  }

  lemma SameIfSameSize<T>(a: set<T>, b: set<T>)
    requires a <= b
    ensures b <= a <==> |a| == |b|
  {
    SubsetSize(a, b);
  }

  lemma AcceptedAnswered(k: Contract, declared: set<string>, expected: string -> string, bindings: seq<Binding>)
    requires Accepted(k, declared, expected, bindings)
    ensures Answered(k, Covered(k, bindings)) && Closed(k, Covered(k, bindings))
  {
    var covered := Covered(k, bindings);
    forall x, r | x in covered && Names(k, x, r) ensures r in Touched(k, covered) && NamedBy(k, x, r) {
      NamedIsAnswered(k, declared, expected, bindings, x, r);
    }
    forall x, r | r in Touched(k, covered) && NamedBy(k, x, r) ensures x in covered && x in k.criteria {
      ListedIsCovered(k, declared, expected, bindings, x, r);
    }
  }

  /** In an accepted selection every requirement a covered criterion names, names it back. The links
      are mutual exactly when there are as many references one way as the other. */
  lemma MutualIffCounts(k: Contract, declared: set<string>, expected: string -> string, bindings: seq<Binding>)
    requires Accepted(k, declared, expected, bindings)
    ensures var covered := Covered(k, bindings);
            && CriterionRefs(k, covered) <= RequirementRefs(k, covered)
            && (Mutual(k, covered) <==> |CriterionRefs(k, covered)| == |RequirementRefs(k, covered)|)
  {
    var covered := Covered(k, bindings);
    AcceptedAnswered(k, declared, expected, bindings);
    MutualIffSame(k, covered);
    SameIfSameSize(CriterionRefs(k, covered), RequirementRefs(k, covered));
  }

  function Id(c: char): string { ['A', 'C', '-', c] }

  lemma ShortId(c: char)
    requires IdChar(c)
    ensures CriterionId(Id(c))
  {
    assert Id(c)[3..] == [c] && [c][1..] == "";
    assert Split("", '-') == [""] && [c] + "" == [c];
    assert Split([c], '-') == Prepend(c, [""]) == [[c]];
  }

  /** Two criteria, each with a requirement of its own; the first requirement also lists the second
      criterion. */
  function OneSided(text: string, verifier: string): Contract {
    Contract(map[Id('A') := Criterion(true, Some(text), Some(verifier), Some([Some("FR-A")])),
                 Id('B') := Criterion(true, Some(text), Some(verifier), Some([Some("FR-B")]))],
             map["FR-A" := Requirement(true, Some([Some(Id('A')), Some(Id('B'))])),
                 "FR-B" := Requirement(true, Some([Some(Id('B'))]))])
  }

  lemma OneSidedNodes(text: string, verifier: string)
    requires !Blank(text) && !Blank(verifier)
    ensures NodeOk(OneSided(text, verifier), Id('A')) && NodeOk(OneSided(text, verifier), Id('B'))
  {
    ShortId('A');
    ShortId('B');
    assert Id('A')[3] != Id('B')[3];
  }

  /** The other direction is not checked: in an accepted selection a requirement may list a criterion
      that does not list it. */
  lemma RequirementLinksNeedNotBeAnswered(text: string, capability: string, expected: string -> string)
    requires !Blank(text) && !Blank(expected(capability))
    ensures var k := OneSided(text, expected(capability));
            var bindings := [Binding(true, Some(capability), Some(expected(capability)), Some([Some(Id('A'))]))];
            && Accepted(k, {capability}, expected, bindings) && !Mutual(k, Covered(k, bindings))
            && NamedBy(k, Id('B'), "FR-A") && !Names(k, Id('B'), "FR-A")
  {
    var k := OneSided(text, expected(capability));
    var b := Binding(true, Some(capability), Some(expected(capability)), Some([Some(Id('A'))]));
    OneSidedAccepted(k, text, expected, capability, b);
    OneSidedLinks(text, expected(capability));
    ReachableSelf(k, Id('A'));
    assert Some(Id('A')) in [b][0].criteria.value && Bound(k, [b], Id('A'));
    assert Id('A') in Covered(k, [b]) && Names(k, Id('A'), "FR-A");
  }

  lemma OneSidedLinks(text: string, verifier: string)
    ensures var k := OneSided(text, verifier);
            && Id('A') in k.criteria && Names(k, Id('A'), "FR-A")
            && NamedBy(k, Id('B'), "FR-A") && !Names(k, Id('B'), "FR-A")
  {
    assert "FR-A"[3] != "FR-B"[3] && Id('A')[3] != Id('B')[3];
  }

  lemma OneSidedAccepted(k: Contract, text: string, expected: string -> string, capability: string, b: Binding)
    requires !Blank(text) && !Blank(expected(capability)) && k == OneSided(text, expected(capability))
    requires b == Binding(true, Some(capability), Some(expected(capability)), Some([Some(Id('A'))]))
    ensures Accepted(k, {capability}, expected, [b])
  {
    OneSidedNodes(text, expected(capability));
    ShortId('A');
    OneSidedClosed(text, expected(capability));
    forall x | Reachable(k, Id('A'), x) ensures NodeOk(k, x) {
      ClosedCoversReachable(k, {Id('A'), Id('B')}, Id('A'), x);
    }
    assert BoundOk(k, b, Id('A'));
    assert [b][0].capability == Some(capability);
  }

  lemma OneSidedClosed(text: string, verifier: string)
    requires !Blank(text) && !Blank(verifier)
    ensures ClosedGood(OneSided(text, verifier), {Id('A'), Id('B')})
  {
    OneSidedNodes(text, verifier);
    assert "FR-A"[3] != "FR-B"[3] && Id('A')[3] != Id('B')[3];
  }
}
