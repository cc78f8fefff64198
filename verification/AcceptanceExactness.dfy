/** Where the contradiction analysis is also complete: it flags a set of assertions at one path
    exactly when no document satisfies the set. */
module AcceptanceExactness {
  import opened Json
  import opened Acceptance

  predicate SamePath(s: seq<Assertion>, path: string) { forall a :: a in s ==> a.path == path }

  // ----- one path: a document is as good as the value it holds there -----

  function Nest(parts: seq<string>, value: Json): Json {
    if parts == [] then value else Obj(map[parts[0] := Nest(parts[1..], value)])
  }

  lemma {:induction false} WalkNest(parts: seq<string>, value: Json)
    ensures Walk(Nest(parts, value), parts) == Some(value)
  {
    if parts != [] { WalkNest(parts[1..], value); }
  }

  lemma ValueGivesDocument(search: Search, s: seq<Assertion>, path: string, value: Json)
    requires AllWellFormed(s) && SamePath(s, path) && AllSatisfied(search, s, value)
    ensures Satisfiable(search, s)
  {
    var document := Nest(Split(path, '.'), value);
    WalkNest(Split(path, '.'), value);
    forall a | a in s ensures Passes(search, a, document) { EvaluatorsAgree(search, a, document); }
    assert AllPass(search, s, document);
  }

  lemma DocumentGivesValue(search: Search, s: seq<Assertion>, path: string) returns (value: Json)
    requires AllWellFormed(s) && SamePath(s, path) && s != [] && Satisfiable(search, s)
    ensures AllSatisfied(search, s, value)
  {
    var document :| AllPass(search, s, document);
    EvaluatorsAgree(search, s[0], document);
    value := At(document, path).value;
    forall a | a in s ensures LiteralSatisfies(search, a, value) { EvaluatorsAgree(search, a, document); }
  }

  lemma FlaggedSetUnsatisfiable(search: Search, s: seq<Assertion>, path: string)
    requires AllWellFormed(s) && SamePath(s, path) && s != [] && SetContradictory(search, s)
    ensures !Satisfiable(search, s)
  {
    if Satisfiable(search, s) {
      var v := DocumentGivesValue(search, s, path);
      SetSound(search, s, v);
    }
  }

  // ----- sets with a pinned value -----

  /** With an equality or a pinning unary operator in the set, the check decides satisfiability. */
  lemma ExactWhenPinned(search: Search, s: seq<Assertion>, path: string)
    requires AllWellFormed(s) && SamePath(s, path)
    requires exists a :: a in s && (a.op.EQ? || Pin(a.op).Some?)
    ensures SetContradictory(search, s) <==> !Satisfiable(search, s)
  {
    if SetContradictory(search, s) {
      FlaggedSetUnsatisfiable(search, s, path);
    } else {
      var a :| a in s && (a.op.EQ? || Pin(a.op).Some?);
      var v := if a.op.EQ? then a.value else Pin(a.op).value;
      assert Forced(s, v);
      ValueGivesDocument(search, s, path, v);
    }
  }

  // ----- numeric bounds and exclusions -----

  predicate IsBound(a: Assertion) { IsOrdered(a.op) && a.value.Num? }

  /** Numeric bounds, plus inequalities with anything, plus `not_null`. */
  predicate Numeric(s: seq<Assertion>) {
    forall a :: a in s ==> IsBound(a) || a.op.NE? || a.op.NOT_NULL?
  }

  /** Every number strictly between `lo` and `hi` respects every bound in the set. */
  predicate InsideBounds(s: seq<Assertion>, lo: real, hi: real) {
    lo < hi && forall a :: a in s && IsBound(a) ==>
      (IsLower(a.op) ==> a.value.r <= lo) && (IsUpper(a.op) ==> hi <= a.value.r)
  }

  /** No floor reaches a ceiling. */
  predicate Separated(s: seq<Assertion>) {
    forall a, b :: a in s && b in s && IsBound(a) && IsBound(b) && IsLower(a.op) && IsUpper(b.op)
                   ==> a.value.r < b.value.r
  }

  lemma {:induction false} HighestFloor(s: seq<Assertion>, default: real) returns (lo: real)
    ensures forall a :: a in s && IsBound(a) && IsLower(a.op) ==> a.value.r <= lo
    ensures lo == default || exists a :: a in s && IsBound(a) && IsLower(a.op) && a.value.r == lo
    ensures default <= lo
  {
    if s == [] { return default; }
    assert forall a :: a in s <==> a == s[0] || a in s[1..];
    lo := HighestFloor(s[1..], default);
    if IsBound(s[0]) && IsLower(s[0].op) && s[0].value.r > lo { lo := s[0].value.r; }
  }

  /** A point below every ceiling. */
  lemma {:induction false} BelowCeilings(s: seq<Assertion>) returns (x: real)
    ensures forall a :: a in s && IsBound(a) && IsUpper(a.op) ==> x < a.value.r
  {
    if s == [] { return 0.0; }
    assert forall a :: a in s <==> a == s[0] || a in s[1..];
    x := BelowCeilings(s[1..]);
    if IsBound(s[0]) && x >= s[0].value.r { x := s[0].value.r - 1.0; }
  }

  /** Room above `lo` and below every ceiling, when each ceiling is above `lo`. */
  lemma {:induction false} RoomAbove(s: seq<Assertion>, lo: real) returns (hi: real)
    requires forall a :: a in s && IsBound(a) && IsUpper(a.op) ==> lo < a.value.r
    ensures lo < hi && forall a :: a in s && IsBound(a) && IsUpper(a.op) ==> hi <= a.value.r
  {
    if s == [] { return lo + 1.0; }
    assert forall a :: a in s <==> a == s[0] || a in s[1..];
    hi := RoomAbove(s[1..], lo);
    if IsBound(s[0]) && IsUpper(s[0].op) && s[0].value.r < hi { hi := s[0].value.r; }
  }

  lemma OpenInterval(s: seq<Assertion>) returns (lo: real, hi: real)
    requires Separated(s)
    ensures InsideBounds(s, lo, hi)
  {
    var x := BelowCeilings(s);
    lo := HighestFloor(s, x);
    hi := RoomAbove(s, lo);
  }

  /** An open interval of reals survives the removal of finitely many points. */
  lemma {:induction false} AvoidFinitely(s: seq<Assertion>, lo: real, hi: real) returns (l: real, h: real)
    requires lo < hi
    ensures lo <= l < h <= hi
    ensures forall a, x :: a in s && a.op.NE? && l < x < h ==> Num(x) != a.value
  {
    if s == [] { return lo, hi; }
    l, h := AvoidFinitely(s[1..], lo, hi);
    assert forall a :: a in s <==> a == s[0] || a in s[1..];
    if s[0].op.NE? && s[0].value.Num? && l < s[0].value.r < h { h := s[0].value.r; }
  }

  /** On numeric sets the check decides satisfiability over the reals. */
  lemma ExactOnNumbers(search: Search, s: seq<Assertion>, path: string)
    requires AllWellFormed(s) && SamePath(s, path) && Numeric(s) && s != []
    ensures SetContradictory(search, s) <==> !Satisfiable(search, s)
  {
    if SetContradictory(search, s) {
      FlaggedSetUnsatisfiable(search, s, path);
    } else if floor, ceiling :|
                floor in s && ceiling in s && floor.op.GTE? && ceiling.op.LTE? && floor.value == ceiling.value {
      assert Forced(s, floor.value);
      ValueGivesDocument(search, s, path, floor.value);
    } else {
      forall a, b | a in s && b in s && IsBound(a) && IsBound(b) && IsLower(a.op) && IsUpper(b.op)
        ensures a.value.r < b.value.r
      {
        BoundsCompatible(search, s, a, b);
      }
      var lo, hi := OpenInterval(s);
      var l, h := AvoidFinitely(s, lo, hi);
      var x := (l + h) / 2.0;
      assert l < x < h;
      forall a | a in s ensures LiteralSatisfies(search, a, Num(x)) {}
      ValueGivesDocument(search, s, path, Num(x));
    }
  }

  /** A floor and a ceiling the compiler lets pass, in whichever order they come. */
  lemma AcceptedBounds(search: Search, left: Assertion, right: Assertion)
    requires WellFormed(left) && WellFormed(right) && !Contradictory(search, left, right)
    requires (IsLower(left.op) && IsUpper(right.op)) || (IsUpper(left.op) && IsLower(right.op))
    ensures var a, b := if IsLower(left.op) then left else right, if IsLower(left.op) then right else left;
            Comparable(a.value, b.value) && (Less(a.value, b.value) || (a.value == b.value && a.op.GTE? && b.op.LTE?))
  {
    if Comparable(left.value, right.value) { LessTotal(left.value, right.value); }
  }

  /** In an unflagged set every floor/ceiling pair is compatible. */
  lemma BoundsCompatible(search: Search, s: seq<Assertion>, a: Assertion, b: Assertion)
    requires AllWellFormed(s) && !SetContradictory(search, s)
    requires a in s && b in s && IsLower(a.op) && IsUpper(b.op)
    ensures Comparable(a.value, b.value)
    ensures Less(a.value, b.value) || (a.value == b.value && a.op.GTE? && b.op.LTE?)
  {
    var i :| 0 <= i < |s| && s[i] == a;
    var j :| 0 <= j < |s| && s[j] == b;
    if i < j { AcceptedBounds(search, s[i], s[j]); } else { AcceptedBounds(search, s[j], s[i]); }
  }

  // ----- text bounds: exact up to two gaps -----

  predicate Text(s: seq<Assertion>) { forall a :: a in s ==> IsOrdered(a.op) && a.value.Str? }

  /** The text right after `t`: nothing lies strictly between the two. */
  function Next(t: string): string { t + "\0" }

  /** The two ways text bounds can exclude everything without any pair of them clashing: a ceiling
      strictly below the empty text, and a strict floor right under a strict ceiling. */
  predicate TextGap(s: seq<Assertion>) {
    || (exists a :: a in s && a.op.LT? && a.value == Str(""))
    || (exists a, b :: a in s && b in s && a.op.GT? && b.op.LT? && a.value.Str? && b.value == Str(Next(a.value.s)))
  }

  lemma {:induction false} NextIsNext(t: string, u: string)
    ensures TextLess(t, Next(t))
    ensures TextLess(t, u) <==> u == Next(t) || TextLess(Next(t), u)
  {
    if t == "" {
      if u != "" { assert u == [u[0]] + u[1..]; }
    } else {
      assert Next(t)[1..] == Next(t[1..]);
      if u != "" {
        NextIsNext(t[1..], u[1..]);
        assert u == [u[0]] + u[1..];
      } else {
        NextIsNext(t[1..], "");
      }
    }
  }

  /** The tightest floor of a text set: every text from `low` on, and no other, respects all floors. */
  lemma {:induction false} TightestFloor(search: Search, s: seq<Assertion>) returns (low: string)
    requires AllWellFormed(s) && Text(s)
    ensures forall a :: a in s && IsLower(a.op) ==> LiteralSatisfies(search, a, Str(low))
    ensures low == "" || exists a :: a in s && IsLower(a.op) && low == LeastAbove(a)
  {
    if s == [] { return ""; }
    assert forall a :: a in s <==> a == s[0] || a in s[1..];
    low := TightestFloor(search, s[1..]);
    if IsLower(s[0].op) && !LiteralSatisfies(search, s[0], Str(low)) {
      var old_low := low;
      var floor := s[0].value.s;
      low := if s[0].op.GT? then Next(floor) else floor;
      NextIsNext(floor, low);
      TextLessTotal(old_low, floor);
      forall a | a in s && IsLower(a.op) ensures LiteralSatisfies(search, a, Str(low)) {
        if a != s[0] {
          FloorCarriesUp(search, a, old_low, floor);
          if s[0].op.GT? { FloorCarriesUp(search, a, floor, low); }
        }
      }
    }
  }

  lemma FloorCarriesUp(search: Search, a: Assertion, t: string, u: string)
    requires WellFormed(a) && IsLower(a.op) && a.value.Str? && LiteralSatisfies(search, a, Str(t))
    requires t == u || TextLess(t, u)
    ensures LiteralSatisfies(search, a, Str(u))
  {
    if t != u && a.value.s != t { TextLessTransitive(a.value.s, t, u); }
  }

  /** Nothing lies in a gap. */
  lemma GapUnsatisfiable(search: Search, s: seq<Assertion>, v: Json)
    requires AllWellFormed(s) && s != [] && Text(s) && TextGap(s)
    ensures !AllSatisfied(search, s, v)
  {
    if AllSatisfied(search, s, v) {
      if a, b :| a in s && b in s && a.op.GT? && b.op.LT? && a.value.Str? && b.value == Str(Next(a.value.s)) {
        assert LiteralSatisfies(search, a, v) && LiteralSatisfies(search, b, v);
        NextIsNext(a.value.s, v.s);
        TextLessTotal(v.s, Next(a.value.s));
      }
    }
  }

  lemma GaplessSatisfiable(search: Search, s: seq<Assertion>, path: string)
    requires AllWellFormed(s) && SamePath(s, path) && Text(s) && !SetContradictory(search, s) && !TextGap(s)
    ensures Satisfiable(search, s)
  {
    var low := TightestFloor(search, s);
    forall b | b in s ensures LiteralSatisfies(search, b, Str(low)) {
      if IsUpper(b.op) { LowUnderCeiling(search, s, b, low); }
    }
    ValueGivesDocument(search, s, path, Str(low));
  }

  /** On ordered text sets the check misses exactly the gaps. */
  lemma ExactOnTextUpToGaps(search: Search, s: seq<Assertion>, path: string)
    requires AllWellFormed(s) && SamePath(s, path) && Text(s) && s != []
    ensures SetContradictory(search, s) || TextGap(s) <==> !Satisfiable(search, s)
  {
    if SetContradictory(search, s) {
      FlaggedSetUnsatisfiable(search, s, path);
    } else if TextGap(s) {
      if Satisfiable(search, s) {
        var v := DocumentGivesValue(search, s, path);
        GapUnsatisfiable(search, s, v);
      }
    } else {
      GaplessSatisfiable(search, s, path);
    }
  }

  /** What a floor demands of the texts above it. */
  function LeastAbove(a: Assertion): string
    requires a.value.Str?
  {
    if a.op.GT? then Next(a.value.s) else a.value.s
  }

  lemma FloorUnderCeiling(search: Search, a: Assertion, b: Assertion)
    requires WellFormed(a) && WellFormed(b) && IsLower(a.op) && IsUpper(b.op) && a.value.Str? && b.value.Str?
    requires Less(a.value, b.value) || (a.value == b.value && a.op.GTE? && b.op.LTE?)
    requires !(a.op.GT? && b.op.LT? && b.value == Str(Next(a.value.s)))
    ensures LiteralSatisfies(search, b, Str(LeastAbove(a)))
  {
    NextIsNext(a.value.s, b.value.s);
  }

  lemma EmptyUnderCeiling(search: Search, b: Assertion)
    requires WellFormed(b) && IsUpper(b.op) && b.value.Str? && !(b.op.LT? && b.value == Str(""))
    ensures LiteralSatisfies(search, b, Str(""))
  {
  }

  lemma LowUnderCeiling(search: Search, s: seq<Assertion>, b: Assertion, low: string)
    requires AllWellFormed(s) && Text(s) && !SetContradictory(search, s) && !TextGap(s) && b in s && IsUpper(b.op)
    requires low == "" || exists a :: a in s && IsLower(a.op) && low == LeastAbove(a)
    ensures LiteralSatisfies(search, b, Str(low))
  {
    if low == "" {
      EmptyUnderCeiling(search, b);
    } else {
      var a :| a in s && IsLower(a.op) && low == LeastAbove(a);
      BoundsCompatible(search, s, a, b);
      FloorUnderCeiling(search, a, b);
    }
  }

  /** Two bounds with an empty gap between them, the smallest miss: `> "a"` and `< "a\0"`. */
  const GAP_SET := [Assertion("p", GT, Str("a")), Assertion("p", LT, Str("a\0"))]

  lemma GapPairAccepted(search: Search)
    ensures !Contradictory(search, GAP_SET[0], GAP_SET[1])
  {
    assert StringDomain in AssertionDomains(GAP_SET[0]) * AssertionDomains(GAP_SET[1]);
    TextLessTotal("a", "a\0");
  }

  lemma TextGapInstance(search: Search)
    ensures AllWellFormed(GAP_SET) && !SetContradictory(search, GAP_SET) && !Satisfiable(search, GAP_SET)
  {
    GapPairAccepted(search);
    assert !SetContradictory(search, GAP_SET) by {
      assert forall v :: !Forced(GAP_SET, v);
    }
    assert TextGap(GAP_SET) by {
      assert GAP_SET[0] in GAP_SET && GAP_SET[1] in GAP_SET && GAP_SET[1].value == Str(Next("a"));
    }
    ExactOnTextUpToGaps(search, GAP_SET, "p");
  }
}
