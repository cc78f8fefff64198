/** The contradiction analysis of `contracts/acceptance.py` and the runtime evaluator of
    `barebones.py`, which judge the same assertions: the first before any build, the second on the
    values a candidate produces. */
module Acceptance {
  import opened Json
  import opened Common

  datatype Operator =
    | EQ | NE | LT | LTE | GT | GTE | CONTAINS | NOT_CONTAINS | MATCHES
    | IS_TRUE | IS_FALSE | IS_NULL | NOT_NULL

  datatype Assertion = Assertion(path: string, op: Operator, value: Json)

  /** `re.search(pattern, text)`, of which nothing is assumed. */
  type Search = (string, string) -> bool

  predicate IsOrdered(op: Operator) { op.LT? || op.LTE? || op.GT? || op.GTE? }
  predicate IsUnary(op: Operator) { op.IS_TRUE? || op.IS_FALSE? || op.IS_NULL? || op.NOT_NULL? }
  predicate IsEquality(op: Operator) { op.EQ? || op.NE? }
  predicate IsLower(op: Operator) { op.GT? || op.GTE? }
  predicate IsUpper(op: Operator) { op.LT? || op.LTE? }

  /** What the compiler checks of an assertion before it analyses the list. */
  predicate WellFormed(a: Assertion) {
    && a.path != ""
    && (a.op.MATCHES? ==> a.value.Str?)
    && (IsOrdered(a.op) ==> a.value.Num? || a.value.Str?)
  }

  // ----- shared comparisons -----

  predicate Comparable(left: Json, right: Json) {
    (left.Num? && right.Num?) || (left.Str? && right.Str?)
  }

  predicate Less(left: Json, right: Json)
    requires Comparable(left, right)
  {
    if left.Num? then left.r < right.r else TextLess(left.s, right.s)
  }

  // ----- the compiler's side -----

  function OrderedComparison(left: Json, op: Operator, right: Json): Option<bool> {
    if !Comparable(left, right) then None
    else match op
      case LT => Some(Less(left, right))
      case LTE => Some(Less(left, right) || left == right)
      case GT => Some(Less(right, left))
      case GTE => Some(Less(right, left) || left == right)
      case _ => None
  }

  /** The one value a unary operator pins, if it pins one. */
  function Pin(op: Operator): Option<Json> {
    match op
    case IS_TRUE => Some(Bool(true))
    case IS_FALSE => Some(Bool(false))
    case IS_NULL => Some(Null)
    case _ => None
  }

  predicate LiteralSatisfies(search: Search, a: Assertion, value: Json)
    requires WellFormed(a)
  {
    match a.op
    case EQ => value == a.value
    case NE => value != a.value
    case LT | LTE | GT | GTE => OrderedComparison(value, a.op, a.value) == Some(true)
    case MATCHES => value.Str? && search(a.value.s, value.s)
    case CONTAINS | NOT_CONTAINS =>
      if value.Arr? then a.op.CONTAINS? == (a.value in value.items)
      else if a.value.Str? && value.Str? then a.op.CONTAINS? == Substring(a.value.s, value.s)
      else if a.value.Str? && value.Obj? then a.op.CONTAINS? == (a.value.s in value.members)
      else false
    case NOT_NULL => value != Null
    case _ => Some(value) == Pin(a.op)
  }

  datatype Domain = NullDomain | BooleanDomain | NumberDomain | StringDomain | ListDomain | MappingDomain

  const ALL_DOMAINS := {NullDomain, BooleanDomain, NumberDomain, StringDomain, ListDomain, MappingDomain}

  function ValueDomain(v: Json): Domain {
    match v
    case Null => NullDomain
    case Bool(_) => BooleanDomain
    case Num(_) => NumberDomain
    case Str(_) => StringDomain
    case Arr(_) => ListDomain
    case Obj(_) => MappingDomain
  }

  function AssertionDomains(a: Assertion): set<Domain> {
    match a.op
    case EQ | LT | LTE | GT | GTE => {ValueDomain(a.value)}
    case NE => ALL_DOMAINS
    case MATCHES => {StringDomain}
    case CONTAINS | NOT_CONTAINS =>
      if a.value.Str? then {StringDomain, ListDomain, MappingDomain} else {ListDomain}
    case IS_TRUE | IS_FALSE => {BooleanDomain}
    case IS_NULL => {NullDomain}
    case NOT_NULL => ALL_DOMAINS - {NullDomain}
  }

  /** `{a, b} == {x, y}`, for two different `x` and `y`. */
  predicate AreTwo(a: Operator, b: Operator, x: Operator, y: Operator) { (a == x && b == y) || (a == y && b == x) }

  const OPPOSITE_UNARY := {(IS_TRUE, IS_FALSE), (IS_FALSE, IS_TRUE), (IS_NULL, NOT_NULL), (NOT_NULL, IS_NULL)}

  /** `_contradictory`, branch by branch. */
  predicate Contradictory(search: Search, left: Assertion, right: Assertion)
    requires WellFormed(left) && WellFormed(right)
  {
    if AssertionDomains(left) * AssertionDomains(right) == {} then true
    else if left.op.EQ? && right.op.EQ? then left.value != right.value
    else if AreTwo(left.op, right.op, EQ, NE) then left.value == right.value
    else if AreTwo(left.op, right.op, CONTAINS, NOT_CONTAINS) then left.value == right.value
    else if (left.op, right.op) in OPPOSITE_UNARY then true
    else if Pin(left.op).Some? then !LiteralSatisfies(search, right, Pin(left.op).value)
    else if Pin(right.op).Some? then !LiteralSatisfies(search, left, Pin(right.op).value)
    else
      var equality := if IsEquality(left.op) then left else right;
      var unary := if IsUnary(left.op) then left else right;
      if IsEquality(equality.op) && IsUnary(unary.op) then
        var matches := if unary.op.NOT_NULL? then equality.value != Null else Some(equality.value) == Pin(unary.op);
        if equality.op.EQ? then !matches else !unary.op.NOT_NULL? && matches
      else if IsOrdered(left.op) && IsOrdered(right.op) && OrderedComparison(left.value, GT, right.value).None? then
        true
      else if left.op.EQ? && IsOrdered(right.op) then OrderedComparison(left.value, right.op, right.value) != Some(true)
      else if right.op.EQ? && IsOrdered(left.op) then OrderedComparison(right.value, left.op, left.value) != Some(true)
      else
        var lower := if IsLower(left.op) then left else right;
        var upper := if IsUpper(right.op) then right else left;
        if !IsLower(lower.op) || !IsUpper(upper.op) then false
        else
          var greater := OrderedComparison(lower.value, GT, upper.value);
          greater != Some(false) || (lower.value == upper.value && (lower.op.GT? || upper.op.LT?))
  }

  predicate AllWellFormed(s: seq<Assertion>) { forall a :: a in s ==> WellFormed(a) }

  predicate AllSatisfied(search: Search, s: seq<Assertion>, value: Json)
    requires AllWellFormed(s)
  {
    forall a :: a in s ==> LiteralSatisfies(search, a, value)
  }

  /** A value the set forces: an equality, a pinning unary operator, or a floor meeting its ceiling. */
  predicate Forced(s: seq<Assertion>, value: Json) {
    || (exists a :: a in s && a.op.EQ? && a.value == value)
    || (exists a :: a in s && Pin(a.op) == Some(value))
    || (exists floor, ceiling :: floor in s && ceiling in s && floor.op.GTE? && ceiling.op.LTE?
                                 && floor.value == value && ceiling.value == value)
  }

  /** `_assertion_set_contradictory`: some pair clashes, or a forced value fails some assertion. */
  ghost predicate SetContradictory(search: Search, s: seq<Assertion>)
    requires AllWellFormed(s)
  {
    || (exists i, j :: 0 <= i < j < |s| && Contradictory(search, s[i], s[j]))
    || (exists v :: Forced(s, v) && !AllSatisfied(search, s, v))
  }

  // ----- the runtime evaluator -----

  /** `_path`: walk object members; a missing member or a non-object on the way is a failure. */
  function Walk(value: Json, parts: seq<string>): Option<Json> {
    if parts == [] then Some(value)
    else if value.Obj? && parts[0] in value.members then Walk(value.members[parts[0]], parts[1..])
    else None
  }

  function At(value: Json, path: string): Option<Json> { Walk(value, Split(path, '.')) }

  predicate Ordered(left: Json, right: Json, op: Operator)
    requires IsOrdered(op)
  {
    Comparable(left, right)
    && match op
       case LT => Less(left, right)
       case LTE => Less(left, right) || left == right
       case GT => Less(right, left)
       case GTE => Less(right, left) || left == right
  }

  predicate Contains(left: Json, right: Json, negate: bool) {
    if left.Arr? then negate != (exists i :: 0 <= i < |left.items| && left.items[i] == right)
    else if right.Str? && left.Str? then negate != Substring(right.s, left.s)
    else if right.Str? && left.Obj? then negate != (right.s in left.members)
    else false
  }

  /** `_assertion_passes`. */
  predicate Passes(search: Search, a: Assertion, document: Json) {
    match At(document, a.path)
    case None => false
    case Some(actual) =>
      match a.op
      case EQ => actual == a.value
      case NE => actual != a.value
      case LT | LTE | GT | GTE => Ordered(actual, a.value, a.op)
      case CONTAINS => Contains(actual, a.value, false)
      case NOT_CONTAINS => Contains(actual, a.value, true)
      case MATCHES => actual.Str? && a.value.Str? && search(a.value.s, actual.s)
      case IS_TRUE => actual == Bool(true)
      case IS_FALSE => actual == Bool(false)
      case IS_NULL => actual == Null
      case NOT_NULL => actual != Null
  }

  predicate AllPass(search: Search, s: seq<Assertion>, document: Json) {
    forall a :: a in s ==> Passes(search, a, document)
  }

  /** Some JSON document makes the whole list pass at run time. */
  ghost predicate Satisfiable(search: Search, s: seq<Assertion>) {
    exists document: Json :: AllPass(search, s, document)
  }

  /** The two evaluators agree on every admitted assertion and every document. */
  lemma EvaluatorsAgree(search: Search, a: Assertion, document: Json)
    requires WellFormed(a)
    ensures Passes(search, a, document) <==>
            At(document, a.path).Some? && LiteralSatisfies(search, a, At(document, a.path).value)
  {
  }

  /** What the bounds mean at run time: numbers compare as numbers, and texts where they first differ. */
  lemma BoundsMean(x: Json, y: Json)
    ensures var less := || (x.Num? && y.Num? && x.r < y.r)
                        || (x.Str? && y.Str? && exists k: nat :: SmallerAt(x.s, y.s, k));
            var same := (x.Num? && y.Num? && x.r == y.r) || (x.Str? && y.Str? && x.s == y.s);
            && (OrderedComparison(x, LT, y) == Some(true) <==> less)
            && (OrderedComparison(x, LTE, y) == Some(true) <==> less || same)
            && (OrderedComparison(y, GT, x) == Some(true) <==> less)
            && (OrderedComparison(y, GTE, x) == Some(true) <==> less || same)
  {
    if x.Str? && y.Str? { TextLessIff(x.s, y.s); }
  }

  // ----- soundness at one path -----

  lemma DomainSound(search: Search, a: Assertion, v: Json)
    requires WellFormed(a) && LiteralSatisfies(search, a, v)
    ensures ValueDomain(v) in AssertionDomains(a)
  {
  }

  lemma LessTransitive(a: Json, b: Json, c: Json)
    requires Comparable(a, b) && Comparable(b, c) && Less(a, b) && Less(b, c)
    ensures Comparable(a, c) && Less(a, c)
  {
    if a.Str? { TextLessTransitive(a.s, b.s, c.s); }
  }

  lemma LessTotal(a: Json, b: Json)
    requires Comparable(a, b)
    ensures Less(a, b) || a == b || Less(b, a)
    ensures !(Less(a, b) && Less(b, a)) && (a == b ==> !Less(a, b))
  {
    if a.Str? { TextLessTotal(a.s, b.s); }
  }

  /** A value between a floor and a ceiling puts the floor no higher than the ceiling. */
  lemma BetweenBounds(search: Search, lower: Assertion, upper: Assertion, v: Json)
    requires WellFormed(lower) && WellFormed(upper) && IsLower(lower.op) && IsUpper(upper.op)
    requires LiteralSatisfies(search, lower, v) && LiteralSatisfies(search, upper, v)
    ensures Comparable(lower.value, upper.value)
    ensures Less(lower.value, upper.value) || (lower.value == upper.value == v && lower.op.GTE? && upper.op.LTE?)
  {
    LessTotal(lower.value, v);
    LessTotal(v, upper.value);
    if lower.value != v && v != upper.value { LessTransitive(lower.value, v, upper.value); }
  }

  lemma DomainsMeet(search: Search, left: Assertion, right: Assertion, v: Json)
    requires WellFormed(left) && WellFormed(right)
    requires LiteralSatisfies(search, left, v) && LiteralSatisfies(search, right, v)
    ensures AssertionDomains(left) * AssertionDomains(right) != {}
  {
    DomainSound(search, left, v);
    DomainSound(search, right, v);
    assert ValueDomain(v) in AssertionDomains(left) * AssertionDomains(right);
  }

  /** The same, read off the pair the way the compiler orders it. */
  lemma BoundPairSound(search: Search, left: Assertion, right: Assertion, v: Json)
    requires WellFormed(left) && WellFormed(right) && IsOrdered(left.op) && IsOrdered(right.op)
    requires LiteralSatisfies(search, left, v) && LiteralSatisfies(search, right, v)
    ensures !Contradictory(search, left, right)
  {
    DomainsMeet(search, left, right, v);
    var lower := if IsLower(left.op) then left else right;
    var upper := if IsUpper(right.op) then right else left;
    if IsLower(lower.op) && IsUpper(upper.op) {
      BetweenBounds(search, lower, upper, v);
      LessTotal(lower.value, upper.value);
    }
  }

  /** A pair with an operator that pins its value. */
  lemma PinnedPairSound(search: Search, left: Assertion, right: Assertion, v: Json)
    requires WellFormed(left) && WellFormed(right) && (Pin(left.op).Some? || Pin(right.op).Some?)
    requires LiteralSatisfies(search, left, v) && LiteralSatisfies(search, right, v)
    ensures !Contradictory(search, left, right)
  {
    DomainsMeet(search, left, right, v);
    assert Pin(left.op).Some? ==> Pin(left.op) == Some(v);
    assert Pin(right.op).Some? ==> Pin(right.op) == Some(v);
  }

  lemma PairSound(search: Search, left: Assertion, right: Assertion, v: Json)
    requires WellFormed(left) && WellFormed(right)
    requires LiteralSatisfies(search, left, v) && LiteralSatisfies(search, right, v)
    ensures !Contradictory(search, left, right)
  {
    if Pin(left.op).Some? || Pin(right.op).Some? {
      PinnedPairSound(search, left, right, v);
    } else if IsOrdered(left.op) && IsOrdered(right.op) {
      BoundPairSound(search, left, right, v);
    } else {
      DomainsMeet(search, left, right, v);
    }
  }

  lemma ForcedSound(search: Search, s: seq<Assertion>, forced: Json, v: Json)
    requires AllWellFormed(s) && AllSatisfied(search, s, v) && Forced(s, forced)
    ensures v == forced
  {
    if floor, ceiling :| floor in s && ceiling in s && floor.op.GTE? && ceiling.op.LTE?
                         && floor.value == forced && ceiling.value == forced {
      BetweenBounds(search, floor, ceiling, v);
      LessTotal(forced, forced);
    }
  }

  lemma SetSound(search: Search, s: seq<Assertion>, v: Json)
    requires AllWellFormed(s) && AllSatisfied(search, s, v)
    ensures !SetContradictory(search, s)
  {
    forall i, j | 0 <= i < j < |s| ensures !Contradictory(search, s[i], s[j]) {
      PairSound(search, s[i], s[j], v);
    }
    forall w | Forced(s, w) ensures AllSatisfied(search, s, w) {
      ForcedSound(search, s, w, v);
    }
  }
}
