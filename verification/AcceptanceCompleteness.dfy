/** What the contradiction analysis must catch: assertions no JSON type admits together, containment
    assertions, and assertions on a value and on a part of it. */
module AcceptanceCompleteness {
  import opened Json
  import opened Acceptance
  import opened AcceptanceCompiler
  import opened AcceptanceExactness

  // ----- JSON types -----

  /** Some value of the type satisfies the assertion. */
  ghost predicate Admits(search: Search, a: Assertion, d: Domain)
    requires WellFormed(a)
  {
    exists v :: ValueDomain(v) == d && LiteralSatisfies(search, a, v)
  }

  /** Some type in the domain table of the assertion has no value that satisfies it. */
  ghost predicate Degenerate(search: Search, a: Assertion) {
    || (a.op.LT? && a.value == Str(""))
    || (a.op.NOT_CONTAINS? && a.value == Str(""))
    || (a.op.NE? && a.value == Null)
    || (a.op.MATCHES? && a.value.Str? && forall t :: !search(a.value.s, t))
  }

  /** A value of the type, other than `v`. */
  function OtherValue(d: Domain, v: Json): (r: Json)
    ensures d != NullDomain || v != Null ==> r != v && ValueDomain(r) == d
  {
    match d
    case NullDomain => Null
    case BooleanDomain => Bool(v != Bool(true))
    case NumberDomain => if v == Num(0.0) then Num(1.0) else Num(0.0)
    case StringDomain => if v == Str("") then Str("a") else Str("")
    case ListDomain => if v == Arr([]) then Arr([Null]) else Arr([])
    case MappingDomain => if v == Obj(map[]) then assert "a" in map["a" := Null]; Obj(map["a" := Null]) else Obj(map[])
  }

  lemma OrderedAdmits(search: Search, a: Assertion) returns (v: Json)
    requires WellFormed(a) && IsOrdered(a.op) && !Degenerate(search, a)
    ensures ValueDomain(v) == ValueDomain(a.value) && LiteralSatisfies(search, a, v)
  {
    if a.value.Num? {
      v := Num(if a.op.LT? then a.value.r - 1.0 else if a.op.GT? then a.value.r + 1.0 else a.value.r);
    } else {
      NextIsNext(a.value.s, "");
      v := Str(if a.op.LT? then "" else if a.op.GT? then Next(a.value.s) else a.value.s);
    }
  }

  lemma ContainmentAdmits(search: Search, a: Assertion, d: Domain) returns (v: Json)
    requires a.op.CONTAINS? || a.op.NOT_CONTAINS?
    requires WellFormed(a) && d in AssertionDomains(a) && !Degenerate(search, a)
    ensures ValueDomain(v) == d && LiteralSatisfies(search, a, v)
  {
    if d.ListDomain? {
      v := Arr(if a.op.CONTAINS? then [a.value] else []);
    } else if d.MappingDomain? {
      v := Obj(if a.op.CONTAINS? then map[a.value.s := Null] else map[]);
    } else {
      v := Str(if a.op.CONTAINS? then a.value.s else "");
      assert a.value.s[0..] == a.value.s;
    }
  }

  /** The domain table is tight: each listed type has a value that satisfies the assertion. */
  lemma DomainTight(search: Search, a: Assertion, d: Domain)
    requires WellFormed(a) && d in AssertionDomains(a) && !Degenerate(search, a)
    ensures Admits(search, a, d)
  {
    if IsOrdered(a.op) {
      var v := OrderedAdmits(search, a);
    } else if a.op.CONTAINS? || a.op.NOT_CONTAINS? {
      var v := ContainmentAdmits(search, a, d);
    } else if a.op.MATCHES? {
      var t :| search(a.value.s, t);
      assert LiteralSatisfies(search, a, Str(t)) && ValueDomain(Str(t)) == d;
    } else {
      var v := if a.op.EQ? then a.value
               else if a.op.NE? then OtherValue(d, a.value)
               else if Pin(a.op).Some? then Pin(a.op).value
               else OtherValue(d, Null);
      assert ValueDomain(v) == d && LiteralSatisfies(search, a, v);
    }
  }

  /** Two assertions that no JSON type admits together are refused. */
  lemma TypesApartRefused(search: Search, left: Assertion, right: Assertion)
    requires WellFormed(left) && WellFormed(right) && !Degenerate(search, left) && !Degenerate(search, right)
    requires forall d :: !(Admits(search, left, d) && Admits(search, right, d))
    ensures Contradictory(search, left, right)
  {
    forall d | d in AssertionDomains(left) && d in AssertionDomains(right) ensures false {
      DomainTight(search, left, d);
      DomainTight(search, right, d);
    }
    assert AssertionDomains(left) * AssertionDomains(right) == {};
  }

  // ----- containment -----

  predicate IsContainment(a: Assertion) { a.op.CONTAINS? || a.op.NOT_CONTAINS? }

  /** Containment and exclusion of containment, plus inequalities and `not_null`. */
  predicate Containments(s: seq<Assertion>) {
    forall a :: a in s ==> IsContainment(a) || a.op.NE? || a.op.NOT_NULL?
  }

  /** Everything the set wants contained. */
  lemma {:induction false} Wanted(s: seq<Assertion>) returns (items: seq<Json>)
    ensures forall v :: v in items <==> exists a :: a in s && a.op.CONTAINS? && a.value == v
  {
    if s == [] { return []; }
    assert forall a :: a in s <==> a == s[0] || a in s[1..];
    items := Wanted(s[1..]);
    if s[0].op.CONTAINS? { items := [s[0].value] + items; }
  }

  /** A number above all numbers of the set, and a length above all its lists. */
  lemma {:induction false} FreshBounds(s: seq<Assertion>) returns (x: real, n: nat)
    ensures forall a :: a in s && a.value.Num? ==> a.value.r < x
    ensures forall a :: a in s && a.value.Arr? ==> |a.value.items| < n
  {
    if s == [] { return 0.0, 0; }
    assert forall a :: a in s <==> a == s[0] || a in s[1..];
    x, n := FreshBounds(s[1..]);
    if s[0].value.Num? && x <= s[0].value.r { x := s[0].value.r + 1.0; }
    if s[0].value.Arr? && n <= |s[0].value.items| { n := |s[0].value.items| + 1; }
  }

  /** With containment only, the check decides satisfiability: a list of everything wanted, made long
      enough with a fresh number, satisfies any set that is not flagged. */
  lemma ExactOnContainment(search: Search, s: seq<Assertion>, path: string)
    requires AllWellFormed(s) && SamePath(s, path) && Containments(s) && s != []
    ensures SetContradictory(search, s) <==> !Satisfiable(search, s)
  {
    if SetContradictory(search, s) {
      FlaggedSetUnsatisfiable(search, s, path);
    } else {
      var items := Wanted(s);
      var x, n := FreshBounds(s);
      var padding := seq(n, i => Num(x));
      var v := Arr(items + padding);
      forall a | a in s ensures LiteralSatisfies(search, a, v) {
        if a.op.NOT_CONTAINS? && a.value in items {
          var b :| b in s && b.op.CONTAINS? && b.value == a.value;
          OppositeContainment(search, s, a, b);
        }
      }
      ValueGivesDocument(search, s, path, v);
    }
  }

  lemma PairClash(search: Search, s: seq<Assertion>, a: Assertion, b: Assertion)
    requires AllWellFormed(s) && a in s && b in s && a != b
    requires Contradictory(search, a, b) && Contradictory(search, b, a)
    ensures SetContradictory(search, s)
  {
    var i :| 0 <= i < |s| && s[i] == a;
    var j :| 0 <= j < |s| && s[j] == b;
    if i < j { assert Contradictory(search, s[i], s[j]); } else { assert Contradictory(search, s[j], s[i]); }
  }

  lemma OppositeContainment(search: Search, s: seq<Assertion>, a: Assertion, b: Assertion)
    requires AllWellFormed(s) && a in s && b in s && a.op.NOT_CONTAINS? && b.op.CONTAINS? && a.value == b.value
    ensures SetContradictory(search, s)
  {
    PairClash(search, s, a, b);
  }

  // ----- every set without patterns and text bounds -----

  /** No pattern, and every bound is a number. */
  predicate Textless(s: seq<Assertion>) {
    forall a :: a in s ==> !a.op.MATCHES? && (IsOrdered(a.op) ==> a.value.Num?)
  }

  lemma BoundAgainstContainment(search: Search, s: seq<Assertion>, a: Assertion, b: Assertion)
    requires AllWellFormed(s) && a in s && b in s && IsOrdered(a.op) && a.value.Num? && IsContainment(b)
    ensures SetContradictory(search, s)
  {
    assert AssertionDomains(a) * AssertionDomains(b) == {} && AssertionDomains(b) * AssertionDomains(a) == {};
    PairClash(search, s, a, b);
  }

  /** On every set of assertions at one path that has no pattern and no text bound, the check decides
      satisfiability. */
  lemma ExactWithoutText(search: Search, s: seq<Assertion>, path: string)
    requires AllWellFormed(s) && SamePath(s, path) && Textless(s) && s != []
    ensures SetContradictory(search, s) <==> !Satisfiable(search, s)
  {
    if exists a :: a in s && (a.op.EQ? || Pin(a.op).Some?) {
      ExactWhenPinned(search, s, path);
    } else if exists a, b :: a in s && b in s && IsOrdered(a.op) && IsContainment(b) {
      var a, b :| a in s && b in s && IsOrdered(a.op) && IsContainment(b);
      BoundAgainstContainment(search, s, a, b);
      FlaggedSetUnsatisfiable(search, s, path);
    } else if exists b :: b in s && IsContainment(b) {
      ExactOnContainment(search, s, path);
    } else {
      ExactOnNumbers(search, s, path);
    }
  }

  // ----- a value and a part of it -----

  /** Some value satisfies the assertion. */
  ghost predicate Possible(search: Search, a: Assertion)
    requires WellFormed(a)
  {
    exists v :: LiteralSatisfies(search, a, v)
  }

  /** Another member does not change what lies on the path. */
  lemma ExtraMember(m: map<string, Json>, k: string, v: Json, parts: seq<string>)
    requires parts != [] && parts[0] != k
    ensures Walk(Obj(m[k := v]), parts) == Walk(Obj(m), parts)
  {
  }

  function FreshName(part: string): (k: string)
    ensures k != part
  {
    part + "x"
  }

  /** An object that satisfies the ancestor and holds a good value on the way to the descendant. */
  lemma AncestorWitness(search: Search, a: Assertion, d: Assertion, w: Json) returns (v: Json)
    requires WellFormed(a) && WellFormed(d) && IsDescendant(a, d) && !AncestorContradicts(search, a, d)
    requires LiteralSatisfies(search, d, w)
    ensures LiteralSatisfies(search, a, v)
    ensures var found := Walk(v, Split(Suffix(a, d), '.')); found.Some? && LiteralSatisfies(search, d, found.value)
  {
    var parts := Split(Suffix(a, d), '.');
    var base := Nest(parts, w);
    WalkNest(parts, w);
    v := base;
    if a.op.EQ? {
      v := a.value;
    } else if a.op.NE? && a.value == base {
      v := Obj(base.members[FreshName(parts[0]) := Null]);
      ExtraMember(base.members, FreshName(parts[0]), Null, parts);
      assert FreshName(parts[0]) in v.members && FreshName(parts[0]) !in base.members;
    } else if a.op.CONTAINS? && a.value.s !in base.members {
      v := Obj(base.members[a.value.s := Null]);
      ExtraMember(base.members, a.value.s, Null, parts);
    }
  }

  /** The check of an ancestor against a descendant is exact: with a descendant that is possible at all,
      it refuses exactly when no document passes both. */
  lemma AncestorExact(search: Search, a: Assertion, d: Assertion)
    requires WellFormed(a) && WellFormed(d) && IsDescendant(a, d)
    ensures !Satisfiable(search, [a, d]) <==> AncestorContradicts(search, a, d) || !Possible(search, d)
  {
    if Satisfiable(search, [a, d]) {
      var document :| AllPass(search, [a, d], document);
      assert Passes(search, a, document) && Passes(search, d, document);
      AncestorSound(search, a, d, document);
      EvaluatorsAgree(search, d, document);
    }
    if !AncestorContradicts(search, a, d) && Possible(search, d) {
      var w :| LiteralSatisfies(search, d, w);
      var v := AncestorWitness(search, a, d, w);
      AncestorDocument(search, a, d, v);
    }
  }

  lemma AncestorDocument(search: Search, a: Assertion, d: Assertion, v: Json)
    requires WellFormed(a) && WellFormed(d) && IsDescendant(a, d) && LiteralSatisfies(search, a, v)
    requires var found := Walk(v, Split(Suffix(a, d), '.')); found.Some? && LiteralSatisfies(search, d, found.value)
    ensures Satisfiable(search, [a, d])
  {
    var document := Nest(Split(a.path, '.'), v);
    WalkNest(Split(a.path, '.'), v);
    assert d.path == a.path + "." + Suffix(a, d);
    SplitJoin(a.path, Suffix(a, d), '.');
    WalkComposes(document, Split(a.path, '.'), Split(Suffix(a, d), '.'));
    EvaluatorsAgree(search, a, document);
    EvaluatorsAgree(search, d, document);
    assert AllPass(search, [a, d], document);
  }

  /** Every list that holds an ancestor and a possible descendant no document passes together is refused. */
  lemma ImpossibleDescendantRefused(search: Search, s: seq<Assertion>, a: Assertion, d: Assertion)
    requires AllWellFormed(s) && a in s && d in s && IsDescendant(a, d)
    requires !Satisfiable(search, [a, d]) && Possible(search, d)
    ensures Flagged(search, s)
  {
    AncestorExact(search, a, d);
    assert AncestorClash(search, s, a);
  }

  /** Of which assertions the path carries a clash. */
  ghost function Clashes(search: Search, s: seq<Assertion>): (r: seq<bool>)
    requires AllWellFormed(s)
    ensures |r| == |s|
  {
    seq(|s|, i requires 0 <= i < |s| => PathClash(search, s, s[i].path))
  }

  ghost predicate Among(flags: seq<bool>, n: nat)
    requires n <= |flags|
  {
    n > 0 && (flags[n - 1] || Among(flags, n - 1))
  }

  lemma {:induction false} AmongCounts(flags: seq<bool>, k: nat, n: nat)
    requires k < n <= |flags| && flags[k]
    ensures Among(flags, n)
  {
    if k < n - 1 { AmongCounts(flags, k, n - 1); }
  }

  lemma {:induction false} ClashesAmong(search: Search, s: seq<Assertion>, n: nat)
    requires AllWellFormed(s) && n <= |s|
    ensures ClashAmong(search, s, n) == Among(Clashes(search, s), n)
  {
    if n > 0 { ClashesAmong(search, s, n - 1); }
  }

  /** Every list is refused whose assertions at one path, free of patterns and text bounds, no document
      passes together. */
  lemma ImpossiblePathRefused(search: Search, s: seq<Assertion>, k: nat)
    requires AllWellFormed(s) && k < |s| && Textless(AtPath(s, s[k].path))
    requires !Satisfiable(search, AtPath(s, s[k].path))
    ensures Flagged(search, s)
  {
    assert s[k] in AtPath(s, s[k].path);
    ExactWithoutText(search, AtPath(s, s[k].path), s[k].path);
    AmongCounts(Clashes(search, s), k, |s|);
    ClashesAmong(search, s, |s|);
  }
}
