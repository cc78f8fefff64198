/** The alias-set loops of the two CI analysers: repeated passes over the assignments of a scope that
    put target names into the set of each kind of reference the assigned value is. */
module AliasSets {
  import opened Json
  import opened Common

  type Sets = seq<set<string>>

  datatype Target = NameTarget(id: string) | OtherTarget

  datatype Assignment<V> = Assignment(value: V, targets: seq<Target>)

  /** Which sets an assigned value selects, given all sets; nothing is assumed of it. */
  type Rule<!V> = (V, Sets) -> set<nat>

  function Names(targets: seq<Target>): set<string> {
    set i | 0 <= i < |targets| && targets[i].NameTarget? :: targets[i].id
  }

  predicate Included(s: Sets, t: Sets) {
    |s| == |t| && forall k :: 0 <= k < |s| ==> s[k] <= t[k]
  }

  /** The sets with `names` added to each selected one. */
  function Added(sets: Sets, selected: set<nat>, names: set<string>): (r: Sets)
    ensures |r| == |sets|
  {
    seq(|sets|, k requires 0 <= k < |sets| => if k in selected then sets[k] + names else sets[k])
  }

  /** Nothing is missing from the selected sets. */
  predicate Holds(sets: Sets, selected: set<nat>, names: set<string>) {
    forall k :: 0 <= k < |sets| && k in selected ==> names <= sets[k]
  }

  lemma AddedNothing(sets: Sets, selected: set<nat>, names: set<string>)
    ensures Included(sets, Added(sets, selected, names))
    ensures Added(sets, selected, names) == sets <==> Holds(sets, selected, names)
  {
    if Holds(sets, selected, names) {
      assert forall k :: 0 <= k < |sets| && k in selected ==> sets[k] + names == sets[k];
    } else {
      var k :| 0 <= k < |sets| && k in selected && !(names <= sets[k]);
      assert Added(sets, selected, names)[k] != sets[k];
    }
  }

  // ----- the measure -----

  /** How many target names are missing from the sets, over all sets. */
  function Missing(sets: Sets, universe: set<string>): nat {
    if sets == [] then 0 else |universe - sets[0]| + Missing(sets[1..], universe)
  }

  lemma {:induction false} MissingShrinks(s: Sets, t: Sets, universe: set<string>)
    requires Included(s, t) && forall k :: 0 <= k < |s| ==> t[k] <= s[k] + universe
    ensures Missing(t, universe) <= Missing(s, universe)
    ensures s != t ==> Missing(t, universe) < Missing(s, universe)
  {
    if s != [] {
      assert Included(s[1..], t[1..]);
      MissingShrinks(s[1..], t[1..], universe);
      SubsetSize(universe - t[0], universe - s[0]);
      assert s == [s[0]] + s[1..] && t == [t[0]] + t[1..];
      if s[0] != t[0] {
        var x :| x in t[0] && x !in s[0];
        assert x in universe - s[0] && x !in universe - t[0];
      }
    }
  }

  // ----- one assignment -----

  /** Add the name targets one by one to one set. */
  method AddTargets(sets: Sets, k: nat, targets: seq<Target>) returns (r: Sets, changed: bool)
    requires k < |sets|
    ensures r == sets[k := sets[k] + Names(targets)]
    ensures changed <==> !(Names(targets) <= sets[k])
  {
    r, changed := sets, false;
    for i := 0 to |targets|
      invariant |r| == |sets| && r[k] == sets[k] + Names(targets[..i])
      invariant forall j :: 0 <= j < |sets| && j != k ==> r[j] == sets[j]
      invariant changed <==> !(Names(targets[..i]) <= sets[k])
    {
      var before := Names(targets[..i]);
      assert Names(targets[..i + 1]) == before + if targets[i].NameTarget? then {targets[i].id} else {} by {
        assert forall j :: 0 <= j < i ==> targets[..i + 1][j] == targets[..i][j];
      }
      if targets[i].NameTarget? && targets[i].id !in r[k] {
        r, changed := r[k := r[k] + {targets[i].id}], true;
      }
    }
    assert targets[..|targets|] == targets;
  }

  method ApplyRule<V>(rule: Rule<V>, a: Assignment<V>, sets: Sets) returns (r: Sets, changed: bool)
    ensures r == Added(sets, rule(a.value, sets), Names(a.targets))
    ensures changed <==> !Holds(sets, rule(a.value, sets), Names(a.targets))
  {
    var selected := rule(a.value, sets);
    r, changed := sets, false;
    for k := 0 to |sets|
      invariant |r| == |sets|
      invariant forall j :: 0 <= j < |sets| ==>
                r[j] == if j < k && j in selected then sets[j] + Names(a.targets) else sets[j]
      invariant changed <==> exists j :: 0 <= j < k && j in selected && !(Names(a.targets) <= sets[j])
    {
      if k in selected {
        var more: bool;
        r, more := AddTargets(r, k, a.targets);
        changed := changed || more;
      }
    }
  }

  // ----- the loops -----

  /** A scope: its assignments, the rules in the order they run, and what makes it unresolved. */
  datatype Scope<!V> = Scope(assignments: seq<Assignment<V>>, rules: seq<Rule<V>>,
    reports: (Assignment<V>, Sets) -> bool)

  ghost function Universe<V>(scope: Scope<V>): set<string> {
    set i, x | 0 <= i < |scope.assignments| && x in Names(scope.assignments[i].targets) :: x
  }

  /** Rule `j` finds nothing to add for assignment `i`. */
  predicate Quiet<V>(scope: Scope<V>, sets: Sets, i: nat, j: nat)
    requires i < |scope.assignments| && j < |scope.rules|
  {
    Holds(sets, scope.rules[j](scope.assignments[i].value, sets), Names(scope.assignments[i].targets))
  }

  /** Every assignment's targets are already in every set any rule selects for it. */
  ghost predicate Saturated<V>(scope: Scope<V>, sets: Sets) {
    forall i, j :: 0 <= i < |scope.assignments| && 0 <= j < |scope.rules| ==> Quiet(scope, sets, i, j)
  }

  /** Everything the rules still report has been reported. */
  ghost predicate AllReported<V>(scope: Scope<V>, sets: Sets, unresolved: bool) {
    forall i :: 0 <= i < |scope.assignments| && scope.reports(scope.assignments[i], sets) ==> unresolved
  }

  ghost predicate Between(s: Sets, t: Sets, u: Sets) { Included(s, t) && Included(t, u) }

  /** Rule `j` puts `x`, a target of assignment `i`, into set `k`. */
  predicate Puts<V>(scope: Scope<V>, sets: Sets, i: nat, j: nat, k: nat, x: string) {
    && i < |scope.assignments| && j < |scope.rules|
    && x in Names(scope.assignments[i].targets) && k in scope.rules[j](scope.assignments[i].value, sets)
  }

  /** Some rule puts `x` into set `k` on the way from `s` to `t`. */
  ghost predicate Justified<V>(scope: Scope<V>, s: Sets, t: Sets, k: nat, x: string) {
    exists u, i, j :: Between(s, u, t) && Puts(scope, u, i, j, k, x)
  }

  /** `t` lies above `s`, and each name it adds to a set was put there by a rule. */
  ghost predicate GrownFrom<V>(scope: Scope<V>, s: Sets, t: Sets) {
    Included(s, t) && forall k, x :: 0 <= k < |s| && x in t[k] && x !in s[k] ==> Justified(scope, s, t, k, x)
  }

  lemma JustifiedTransitive<V>(scope: Scope<V>, r: Sets, s: Sets, t: Sets, k: nat, x: string)
    requires Included(r, s) && Included(s, t) && (Justified(scope, r, s, k, x) || Justified(scope, s, t, k, x))
    ensures Justified(scope, r, t, k, x)
  {
    if Justified(scope, r, s, k, x) {
      var u, i, j :| Between(r, u, s) && Puts(scope, u, i, j, k, x);
      IncludedTransitive(u, s, t);
      assert Between(r, u, t);
    } else {
      var u, i, j :| Between(s, u, t) && Puts(scope, u, i, j, k, x);
      IncludedTransitive(r, s, u);
      assert Between(r, u, t);
    }
  }

  lemma IncludedTransitive(r: Sets, s: Sets, t: Sets)
    requires Included(r, s) && Included(s, t)
    ensures Included(r, t)
  {
    forall k | 0 <= k < |r| ensures r[k] <= t[k] { assert r[k] <= s[k] && s[k] <= t[k]; }
  }

  lemma GrownTransitive<V>(scope: Scope<V>, r: Sets, s: Sets, t: Sets)
    requires GrownFrom(scope, r, s) && GrownFrom(scope, s, t)
    ensures GrownFrom(scope, r, t)
  {
    IncludedTransitive(r, s, t);
    forall k, x | 0 <= k < |r| && x in t[k] && x !in r[k] ensures Justified(scope, r, t, k, x) {
      JustifiedTransitive(scope, r, s, t, k, x);
    }
  }

  lemma GrownNames<V>(scope: Scope<V>, s: Sets, t: Sets)
    requires GrownFrom(scope, s, t)
    ensures forall k :: 0 <= k < |s| ==> t[k] <= s[k] + Universe(scope)
  {
    forall k, x | 0 <= k < |s| && x in t[k] && x !in s[k] ensures x in Universe(scope) {
      assert Justified(scope, s, t, k, x);
      var u, i, j :| Between(s, u, t) && Puts(scope, u, i, j, k, x);
    }
  }

  lemma AddedGrows<V>(scope: Scope<V>, sets: Sets, i: nat, j: nat)
    requires i < |scope.assignments| && j < |scope.rules|
    ensures var a := scope.assignments[i];
            GrownFrom(scope, sets, Added(sets, scope.rules[j](a.value, sets), Names(a.targets)))
  {
    var a := scope.assignments[i];
    var after := Added(sets, scope.rules[j](a.value, sets), Names(a.targets));
    forall k, x | 0 <= k < |sets| && x in after[k] && x !in sets[k] ensures Justified(scope, sets, after, k, x) {
      assert Between(sets, sets, after) && Puts(scope, sets, i, j, k, x);
    }
  }

  // ----- the least sets, where there are least ones -----

  /** More in the sets never makes a rule select less. */
  ghost predicate Monotone<V>(scope: Scope<V>) {
    forall i, j, s, t :: 0 <= i < |scope.assignments| && 0 <= j < |scope.rules| && Included(s, t) ==>
      scope.rules[j](scope.assignments[i].value, s) <= scope.rules[j](scope.assignments[i].value, t)
  }

  /** `top` is saturated and lies above `sets`, and the rules are monotone. */
  ghost predicate Above<V>(scope: Scope<V>, sets: Sets, top: Sets) {
    Monotone(scope) && Included(sets, top) && Saturated(scope, top)
  }

  lemma StaysBelow<V>(scope: Scope<V>, sets: Sets, top: Sets, i: nat, j: nat)
    requires i < |scope.assignments| && j < |scope.rules| && Above(scope, sets, top)
    ensures var a := scope.assignments[i];
            Above(scope, Added(sets, scope.rules[j](a.value, sets), Names(a.targets)), top)
  {
    var a := scope.assignments[i];
    assert Quiet(scope, top, i, j);
    assert scope.rules[j](a.value, sets) <= scope.rules[j](a.value, top);
  }

  method Visit<V>(scope: Scope<V>, i: nat, before: Sets) returns (sets: Sets, changed: bool)
    requires i < |scope.assignments|
    ensures GrownFrom(scope, before, sets)
    ensures forall top :: Above(scope, before, top) ==> Above(scope, sets, top)
    ensures !changed ==> sets == before && forall j :: 0 <= j < |scope.rules| ==> Quiet(scope, before, i, j)
    ensures changed ==> sets != before
    ensures (forall j :: 0 <= j < |scope.rules| ==> Quiet(scope, before, i, j)) ==> !changed
  {
    sets, changed := before, false;
    for j := 0 to |scope.rules|
      invariant GrownFrom(scope, before, sets)
      invariant forall top :: Above(scope, before, top) ==> Above(scope, sets, top)
      invariant !changed ==> sets == before && forall m :: 0 <= m < j ==> Quiet(scope, before, i, m)
      invariant changed ==> sets != before
      invariant (forall m :: 0 <= m < |scope.rules| ==> Quiet(scope, before, i, m)) ==> !changed
    {
      var a, rule := scope.assignments[i], scope.rules[j];
      AddedNothing(sets, rule(a.value, sets), Names(a.targets));
      AddedGrows(scope, sets, i, j);
      GrownTransitive(scope, before, sets, Added(sets, rule(a.value, sets), Names(a.targets)));
      ghost var was := sets;
      var more: bool;
      sets, more := ApplyRule(rule, a, sets);
      assert was == before ==> (more <==> !Quiet(scope, before, i, j));
      forall top | Above(scope, before, top) ensures Above(scope, sets, top) { StaysBelow(scope, was, top, i, j); }
      Sandwich(before, was, sets);
      changed := changed || more;
    }
  }

  lemma Sandwich(r: Sets, s: Sets, t: Sets)
    requires Included(r, s) && Included(s, t)
    ensures r == t ==> s == r
  {
    if r == t {
      forall k | 0 <= k < |r| ensures s[k] == r[k] { assert r[k] <= s[k] && s[k] <= t[k]; }
    }
  }

  predicate ReportsAt<V>(scope: Scope<V>, sets: Sets, i: nat) {
    i < |scope.assignments| && scope.reports(scope.assignments[i], sets)
  }

  /** Some assignment was reported on the way from `s` to `t`. */
  ghost predicate ReportedOn<V>(scope: Scope<V>, s: Sets, t: Sets) {
    exists u, i :: Between(s, u, t) && ReportsAt(scope, u, i)
  }

  lemma ReportedLater<V>(scope: Scope<V>, r: Sets, s: Sets, t: Sets)
    requires Included(r, s) && Included(s, t)
    ensures ReportedOn(scope, r, s) || ReportedOn(scope, s, t) ==> ReportedOn(scope, r, t)
  {
    if ReportedOn(scope, r, s) {
      var u, i :| Between(r, u, s) && ReportsAt(scope, u, i);
      IncludedTransitive(u, s, t);
      assert Between(r, u, t);
    } else if ReportedOn(scope, s, t) {
      var u, i :| Between(s, u, t) && ReportsAt(scope, u, i);
      IncludedTransitive(r, s, u);
      assert Between(r, u, t);
    }
  }

  method Pass<V>(scope: Scope<V>, before: Sets, reported: bool) returns (sets: Sets, changed: bool, unresolved: bool)
    ensures GrownFrom(scope, before, sets) && (reported ==> unresolved)
    ensures forall top :: Above(scope, before, top) ==> Above(scope, sets, top)
    ensures unresolved ==> reported || ReportedOn(scope, before, sets)
    ensures !changed ==> sets == before && Saturated(scope, before) && AllReported(scope, before, unresolved)
    ensures changed ==> sets != before
    ensures Saturated(scope, before) ==> !changed
  {
    sets, changed, unresolved := before, false, reported;
    for i := 0 to |scope.assignments|
      invariant GrownFrom(scope, before, sets) && (reported ==> unresolved)
      invariant forall top :: Above(scope, before, top) ==> Above(scope, sets, top)
      invariant unresolved ==> reported || ReportedOn(scope, before, sets)
      invariant !changed ==> sets == before
      invariant !changed ==> forall m, j :: 0 <= m < i && 0 <= j < |scope.rules| ==> Quiet(scope, before, m, j)
      invariant !changed ==> forall m :: 0 <= m < i && scope.reports(scope.assignments[m], before) ==> unresolved
      invariant changed ==> sets != before
      invariant Saturated(scope, before) ==> !changed
    {
      assert scope.reports(scope.assignments[i], sets) ==> ReportsAt(scope, sets, i) && Between(before, sets, sets);
      unresolved := unresolved || scope.reports(scope.assignments[i], sets);
      ghost var was := sets;
      var more: bool;
      sets, more := Visit(scope, i, sets);
      ReportedLater(scope, before, was, sets);
      GrownTransitive(scope, before, was, sets);
      Sandwich(before, was, sets);
      changed := changed || more;
    }
  }

  /** The `while changed` loop: it always stops, only ever grows the sets and each by names a rule puts there,
      ends saturated, in the least saturated sets if the rules are monotone, and has reported everything there
      is to report about the final sets and nothing that no sets on the way made a report. */
  method Saturate<V>(scope: Scope<V>, start: Sets) returns (sets: Sets, unresolved: bool)
    ensures GrownFrom(scope, start, sets)
    ensures forall top :: Above(scope, start, top) ==> Above(scope, sets, top)
    ensures unresolved ==> ReportedOn(scope, start, sets)
    ensures Saturated(scope, sets) && AllReported(scope, sets, unresolved)
    ensures Saturated(scope, start) ==> sets == start
  {
    sets, unresolved := start, false;
    var changed := true;
    while changed
      invariant GrownFrom(scope, start, sets) && (Saturated(scope, start) ==> sets == start)
      invariant forall top :: Above(scope, start, top) ==> Above(scope, sets, top)
      invariant unresolved ==> ReportedOn(scope, start, sets)
      invariant !changed ==> Saturated(scope, sets) && AllReported(scope, sets, unresolved)
      decreases Missing(sets, Universe(scope)), changed
    {
      ghost var was := sets;
      sets, changed, unresolved := Pass(scope, sets, unresolved);
      GrownTransitive(scope, start, was, sets);
      ReportedLater(scope, start, was, sets);
      GrownNames(scope, was, sets);
      MissingShrinks(was, sets, Universe(scope));
    }
  }

  // ----- the security analyser -----

  /** What `evaluate_security_profile.py` knows of a scope; `matches(k, v, sets)` is reference kind
      `k` recognising the value, `capability` the check on values no kind recognises. */
  datatype SecurityScope<!V> = SecurityScope(
    assignments: seq<Assignment<V>>,
    isClass: bool,
    declared: set<string>,
    matches: (nat, V, Sets) -> bool,
    capability: (V, Sets) -> bool)

  /** The first reference kind that recognises the value. */
  function FirstMatch<V>(matches: (nat, V, Sets) -> bool, value: V, sets: Sets, k: nat): (r: Option<nat>)
    requires k <= |sets|
    ensures r.Some? ==> k <= r.value < |sets| && matches(r.value, value, sets) && forall j :: k <= j < r.value ==>
            !matches(j, value, sets)
    ensures r.None? ==> forall j :: k <= j < |sets| ==> !matches(j, value, sets)
    decreases |sets| - k
  {
    if k == |sets| then None else if matches(k, value, sets) then Some(k) else FirstMatch(matches, value, sets, k + 1)
  }

  function SecurityRules<V>(s: SecurityScope<V>): Scope<V> {
    Scope(s.assignments,
          [(v: V, sets: Sets) => if s.isClass then {} else match FirstMatch(s.matches, v, sets, 0) case Some(k) => {k}
            case None => {}],
          (a: Assignment<V>, sets: Sets) => SecurityReports(s, a, sets))
  }

  /** The scope gains an unresolved edge: a recognised value in a class body, bound to something that
      is not a plain name, or bound to a name declared global or nonlocal; or an unrecognised value
      that stores an import capability. */
  predicate SecurityReports<V>(s: SecurityScope<V>, a: Assignment<V>, sets: Sets) {
    match FirstMatch(s.matches, a.value, sets, 0)
    case Some(_) => s.isClass || OtherTarget in a.targets || Names(a.targets) * s.declared != {}
    case None => s.capability(a.value, sets)
  }

  /** At these sets the first match of an assignment to `x` is kind `k`. */
  predicate Recognised<V>(s: SecurityScope<V>, sets: Sets, i: nat, k: nat, x: string) {
    && i < |s.assignments| && x in Names(s.assignments[i].targets)
    && FirstMatch(s.matches, s.assignments[i].value, sets, 0) == Some(k)
  }

  predicate Unresolved<V>(s: SecurityScope<V>, sets: Sets, i: nat) {
    i < |s.assignments| && SecurityReports(s, s.assignments[i], sets)
  }

  /** The loop of `_lexical_import_aliases`. Outside class scopes the first matching kind of every
      assignment already holds all its name targets, and nothing else was added that no first match put there;
      in a class scope no set moves; and whatever the final sets make unresolved has been reported, and nothing
      that no sets on the way did. */
  method SecurityAliases<V>(s: SecurityScope<V>, start: Sets) returns (sets: Sets, unresolved: bool)
    ensures Included(start, sets)
    ensures s.isClass ==> sets == start
    ensures !s.isClass ==> forall i :: 0 <= i < |s.assignments| ==>
              var a := s.assignments[i];
              match FirstMatch(s.matches, a.value, sets, 0) case Some(k) => Names(a.targets) <= sets[k]
                case None => true
    ensures forall k, x :: 0 <= k < |start| && x in sets[k] && x !in start[k] ==>
              exists t, i :: Between(start, t, sets) && Recognised(s, t, i, k, x)
    ensures forall i :: Unresolved(s, sets, i) ==> unresolved
    ensures unresolved ==> exists t, i :: Between(start, t, sets) && Unresolved(s, t, i)
  {
    var scope := SecurityRules(s);
    assert s.isClass ==> Saturated(scope, start);
    sets, unresolved := Saturate(scope, start);
    forall k, x | 0 <= k < |start| && x in sets[k] && x !in start[k]
      ensures exists t, i :: Between(start, t, sets) && Recognised(s, t, i, k, x)
    {
      assert Justified(scope, start, sets, k, x);
      var t, i, j :| Between(start, t, sets) && Puts(scope, t, i, j, k, x);
      assert Recognised(s, t, i, k, x);
    }
    if unresolved {
      ghost var t, i :| Between(start, t, sets) && ReportsAt(scope, t, i);
      assert Unresolved(s, t, i);
    }
    if !s.isClass {
      forall i | 0 <= i < |s.assignments|
        ensures var a := s.assignments[i];
                match FirstMatch(s.matches, a.value, sets, 0) case Some(k) => Names(a.targets) <= sets[k]
                  case None => true
      {
        assert Quiet(scope, sets, i, 0);
      }
    }
  }

  // ----- the privacy analyser -----

  /** Indices of the five sets `analyze_scope` grows. */
  const REFLECTION: nat := 0
  const DIRECT: nat := 1
  const DICTIONARY: nat := 2
  const GETTER: nat := 3
  const VALUE: nat := 4

  datatype PrivacyScope<!V> = PrivacyScope(
    assignments: seq<Assignment<V>>,
    reflection: (V, Sets) -> bool,
    direct: (V, Sets) -> bool,
    namespace: (V, Sets) -> bool,
    getter: (V, Sets) -> bool,
    value: (V, Sets) -> bool)

  /** The one of the three namespace sets a value belongs to: value before getter before dictionary. */
  function Destination<V>(p: PrivacyScope<V>, v: V, sets: Sets): Option<nat> {
    if p.value(v, sets) then Some(VALUE)
    else if p.getter(v, sets) then Some(GETTER)
    else if p.direct(v, sets) || p.namespace(v, sets) then Some(DICTIONARY)
    else None
  }

  /** At these sets an assignment to `x` belongs in set `k`. */
  predicate Belongs<V>(p: PrivacyScope<V>, sets: Sets, i: nat, k: nat, x: string) {
    && i < |p.assignments| && x in Names(p.assignments[i].targets)
    && var v := p.assignments[i].value;
       || (k == REFLECTION && p.reflection(v, sets))
       || (k == DIRECT && p.direct(v, sets))
       || (k == VALUE && p.value(v, sets))
       || (k == GETTER && p.getter(v, sets) && !p.value(v, sets))
       || (k == DICTIONARY && (p.direct(v, sets) || p.namespace(v, sets)) && !p.value(v, sets) && !p.getter(v, sets))
  }

  function PrivacyRules<V>(p: PrivacyScope<V>): Scope<V> {
    Scope(p.assignments,
          [(v: V, sets: Sets) => if p.reflection(v, sets) then {REFLECTION} else {},
           (v: V, sets: Sets) =>
             (if p.direct(v, sets) then {DIRECT} else {})
             + (match Destination(p, v, sets) case Some(k) => {k} case None => {})],
          (a: Assignment<V>, sets: Sets) => false)
  }

  lemma BelongsIff<V>(p: PrivacyScope<V>, sets: Sets, i: nat, k: nat, x: string)
    ensures Belongs(p, sets, i, k, x) <==>
            Puts(PrivacyRules(p), sets, i, 0, k, x) || Puts(PrivacyRules(p), sets, i, 1, k, x)
  {
    if i < |p.assignments| {
      var v := p.assignments[i].value;
      assert k in PrivacyRules(p).rules[0](v, sets) <==> k == REFLECTION && p.reflection(v, sets);
      assert k in PrivacyRules(p).rules[1](v, sets) <==>
          (k == DIRECT && p.direct(v, sets)) || Destination(p, v, sets) == Some(k);
    }
  }

  /** The second loop of `analyze_scope`: at its end the targets of every reflection callable, every
      direct dictionary, and every value, getter or dictionary reference are in the matching set, and nothing
      was added that never belonged there. */
  method PrivacyAliases<V>(p: PrivacyScope<V>, start: Sets) returns (sets: Sets)
    requires |start| == 5
    ensures Included(start, sets)
    ensures forall i: nat, k: nat, x :: Belongs(p, sets, i, k, x) ==> x in sets[k]
    ensures forall k, x :: 0 <= k < |start| && x in sets[k] && x !in start[k] ==>
              exists t, i :: Between(start, t, sets) && Belongs(p, t, i, k, x)
  {
    var scope := PrivacyRules(p);
    var unresolved: bool;
    sets, unresolved := Saturate(scope, start);
    forall i: nat, k: nat, x | Belongs(p, sets, i, k, x) ensures x in sets[k] {
      assert Quiet(scope, sets, i, 0) && Quiet(scope, sets, i, 1);
      BelongsIff(p, sets, i, k, x);
    }
    forall k, x | 0 <= k < |start| && x in sets[k] && x !in start[k]
      ensures exists t, i :: Between(start, t, sets) && Belongs(p, t, i, k, x)
    {
      assert Justified(scope, start, sets, k, x);
      var t, i, j :| Between(start, t, sets) && Puts(scope, t, i, j, k, x);
      BelongsIff(p, t, i, k, x);
    }
  }

  /** `_inherited_aliases`: what a scope starts from. */
  function InheritedAliases(parent: set<string>, module_: set<string>, locals: set<string>,
    globals: set<string>): (r: set<string>)
    ensures forall x :: x in r <==> if x in globals then x in module_ else x in parent && x !in locals
  {
    ((parent - locals) - globals) + (globals * module_)
  }
}
