/** String-constant propagation over one lexical scope, as in `verify_privacy_controls.py` (which
    starts from nothing) and `evaluate_security_profile.py` (which starts from inherited names). */
module StringConstants {
  import opened Json
  import opened Common

  /** The expressions the analysers resolve; anything else is opaque. */
  datatype Expr =
    | Literal(text: string)
    | Name(id: string)
    | Add(left: Expr, right: Expr)
    | Joined(parts: seq<Option<string>>)
    | Opaque

  type Aliases = map<string, string>

  const MAX_LENGTH := 4096

  function Concat(parts: seq<Option<string>>): Option<string> {
    if parts == [] then Some("")
    else match (parts[0], Concat(parts[1..]))
      case (Some(s), Some(t)) => Some(s + t)
      case _ => None
  }

  /** `_literal_string` and `_static_string`. */
  function Resolve(e: Expr, aliases: Aliases): Option<string> {
    match e
    case Literal(text) => Some(text)
    case Name(id) => if id in aliases then Some(aliases[id]) else None
    case Add(left, right) =>
      (match (Resolve(left, aliases), Resolve(right, aliases))
       case (Some(s), Some(t)) => if |s| + |t| <= MAX_LENGTH then Some(s + t) else None
       case _ => None)
    case Joined(parts) =>
      (match Concat(parts)
       case Some(s) => if |s| <= MAX_LENGTH then Some(s) else None
       case None => None)
    case Opaque => None
  }

  /** All assignments of a name, and the value they agree on if all of them resolve. */
  type Assignments = map<string, seq<Expr>>

  function Agreed(values: seq<Expr>, aliases: Aliases): Option<string> {
    if values == [] then None
    else if |values| == 1 then Resolve(values[0], aliases)
    else match (Resolve(values[0], aliases), Agreed(values[1..], aliases))
      case (Some(s), Some(t)) => if s == t then Some(s) else None
      case _ => None
  }

  // ----- what an expression denotes -----

  /** The leaves of an expression from left to right; None stands for a part that is no constant text. */
  datatype Leaf = Constant(text: string) | Reference(id: string) | Unknown

  function PartLeaves(parts: seq<Option<string>>): seq<Leaf> {
    if parts == [] then []
    else [match parts[0] case Some(text) => Constant(text) case None => Unknown] + PartLeaves(parts[1..])
  }

  function Leaves(e: Expr): seq<Leaf> {
    match e
    case Literal(text) => [Constant(text)]
    case Name(id) => [Reference(id)]
    case Add(left, right) => Leaves(left) + Leaves(right)
    case Joined(parts) => PartLeaves(parts)
    case Opaque => [Unknown]
  }

  predicate Known(leaf: Leaf, m: Aliases) { leaf.Constant? || (leaf.Reference? && leaf.id in m) }

  predicate AllKnown(leaves: seq<Leaf>, m: Aliases) { forall i :: 0 <= i < |leaves| ==> Known(leaves[i], m) }

  /** The texts of the leaves, in order. */
  function TextOf(leaves: seq<Leaf>, m: Aliases): string
    requires AllKnown(leaves, m)
  {
    if leaves == [] then ""
    else LeafText(leaves[0], m) + TextOf(leaves[1..], m)
  }

  function LeafText(leaf: Leaf, m: Aliases): string
    requires Known(leaf, m)
  {
    if leaf.Constant? then leaf.text else m[leaf.id]
  }

  /** No sum or joined string inside is longer than the limit. */
  predicate Short(e: Expr, m: Aliases)
    requires AllKnown(Leaves(e), m)
  {
    match e
    case Add(left, right) =>
      KnownParts(Leaves(left), Leaves(right), m);
      Short(left, m) && Short(right, m) && |TextOf(Leaves(e), m)| <= MAX_LENGTH
    case Joined(_) => |TextOf(Leaves(e), m)| <= MAX_LENGTH
    case _ => true
  }

  lemma KnownParts(a: seq<Leaf>, b: seq<Leaf>, m: Aliases)
    ensures AllKnown(a + b, m) <==> AllKnown(a, m) && AllKnown(b, m)
  {
    if AllKnown(a + b, m) {
      forall i | 0 <= i < |a| ensures Known(a[i], m) { assert (a + b)[i] == a[i]; }
      forall i | 0 <= i < |b| ensures Known(b[i], m) { assert (a + b)[|a| + i] == b[i]; }
    }
  }

  lemma {:induction false} TextOfSum(a: seq<Leaf>, b: seq<Leaf>, m: Aliases)
    requires AllKnown(a, m) && AllKnown(b, m) && AllKnown(a + b, m)
    ensures TextOf(a + b, m) == TextOf(a, m) + TextOf(b, m)
  {
    if a == [] {
      assert a + b == b;
    } else {
      var whole := a + b;
      assert whole[0] == a[0] && whole[1..] == a[1..] + b;
      TextOfSum(a[1..], b, m);
      assert TextOf(whole, m) == LeafText(a[0], m) + TextOf(a[1..] + b, m);
    }
  }

  lemma {:induction false} ConcatIsText(parts: seq<Option<string>>, m: Aliases)
    ensures Concat(parts).Some? <==> AllKnown(PartLeaves(parts), m)
    ensures Concat(parts).Some? ==> Concat(parts).value == TextOf(PartLeaves(parts), m)
  {
    if parts != [] {
      ConcatIsText(parts[1..], m);
      var head := [match parts[0] case Some(text) => Constant(text) case None => Unknown];
      KnownParts(head, PartLeaves(parts[1..]), m);
      assert PartLeaves(parts) == head + PartLeaves(parts[1..]);
      assert AllKnown(head, m) <==> Known(head[0], m);
    }
  }

  /** An expression resolves exactly when every leaf is known and nothing inside is too long, and then to
      the texts of its leaves joined from left to right. */
  lemma {:induction false} ResolvesToText(e: Expr, m: Aliases)
    ensures Resolve(e, m).Some? <==> AllKnown(Leaves(e), m) && Short(e, m)
    ensures Resolve(e, m).Some? ==> Resolve(e, m).value == TextOf(Leaves(e), m)
  {
    match e
    case Add(left, right) =>
      ResolvesToText(left, m);
      ResolvesToText(right, m);
      KnownParts(Leaves(left), Leaves(right), m);
      if AllKnown(Leaves(e), m) { TextOfSum(Leaves(left), Leaves(right), m); }
    case Joined(parts) => ConcatIsText(parts, m);
    case Name(id) => assert AllKnown(Leaves(e), m) <==> Known(Leaves(e)[0], m);
    case _ => assert AllKnown(Leaves(e), m) <==> Known(Leaves(e)[0], m);
  }

  ghost predicate AllResolve(values: seq<Expr>, m: Aliases, v: string) {
    forall i :: 0 <= i < |values| ==> Resolve(values[i], m) == Some(v)
  }

  /** The assignments of a name agree on a value exactly when there are some and each resolves to it. */
  lemma {:induction false} AgreedIff(values: seq<Expr>, m: Aliases, v: string)
    ensures Agreed(values, m) == Some(v) <==> values != [] && AllResolve(values, m, v)
  {
    if |values| > 1 {
      var rest := values[1..];
      AgreedIff(rest, m, v);
      if AllResolve(values, m, v) { assert forall i :: 0 <= i < |rest| ==> rest[i] == values[i + 1]; }
      if Resolve(values[0], m) == Some(v) && AllResolve(rest, m, v) {
        forall i | 0 <= i < |values| ensures Resolve(values[i], m) == Some(v) {
          if i > 0 { assert rest[i - 1] == values[i]; }
        }
      }
    }
  }

  /** The text an expression denotes, if it denotes one. */
  ghost predicate Denotes(e: Expr, m: Aliases, text: string) {
    AllKnown(Leaves(e), m) && Short(e, m) && text == TextOf(Leaves(e), m)
  }

  /** There are assignments, and all of them denote the text. */
  ghost predicate AllDenote(values: seq<Expr>, m: Aliases, text: string) {
    values != [] && forall i :: 0 <= i < |values| ==> Denotes(values[i], m, text)
  }

  lemma AgreedDenotes(values: seq<Expr>, m: Aliases, v: string)
    ensures Agreed(values, m) == Some(v) <==> AllDenote(values, m, v)
  {
    AgreedIff(values, m, v);
    forall i | 0 <= i < |values| ensures Resolve(values[i], m) == Some(v) <==> Denotes(values[i], m, v) {
      ResolvesToText(values[i], m);
    }
  }

  /** A name whose assignments all denote one text holds it. */
  ghost predicate HoldsTexts(a: Assignments, m: Aliases) {
    forall x, text {:trigger AllDenote(a[x], m, text)} :: x in a && AllDenote(a[x], m, text) ==> x in m && m[x] == text
  }

  /** A name holds only what all its assignments denote. */
  ghost predicate OnlyTexts(a: Assignments, m: Aliases) {
    forall x :: x in m ==> x in a && AllDenote(a[x], m, m[x])
  }

  // ----- what a value depends on -----

  function Refers(e: Expr): set<string> {
    match e
    case Name(id) => {id}
    case Add(left, right) => Refers(left) + Refers(right)
    case _ => {}
  }

  function RefersAny(values: seq<Expr>): set<string> {
    if values == [] then {} else Refers(values[0]) + RefersAny(values[1..])
  }

  predicate Same(m: Aliases, n: Aliases, x: string) { (x in m <==> x in n) && (x in m ==> m[x] == n[x]) }

  ghost predicate SameOn(m: Aliases, n: Aliases, names: set<string>) { forall y :: y in names ==> Same(m, n, y) }

  lemma {:induction false} ResolveSame(e: Expr, m: Aliases, n: Aliases)
    requires SameOn(m, n, Refers(e))
    ensures Resolve(e, m) == Resolve(e, n)
  {
    match e
    case Name(id) => assert Same(m, n, id);
    case Add(left, right) =>
      ResolveSame(left, m, n);
      ResolveSame(right, m, n);
    case _ =>
  }

  lemma {:induction false} AgreedSame(values: seq<Expr>, m: Aliases, n: Aliases)
    requires SameOn(m, n, RefersAny(values))
    ensures Agreed(values, m) == Agreed(values, n)
  {
    if values != [] {
      ResolveSame(values[0], m, n);
      if |values| > 1 { AgreedSame(values[1..], m, n); }
    }
  }

  lemma SameEverywhere(m: Aliases, n: Aliases)
    requires forall x :: Same(m, n, x)
    ensures m == n
  {
    assert forall x :: x in m ==> Same(m, n, x);
    assert forall x :: x in n ==> Same(m, n, x);
  }

  // ----- the order on alias maps -----

  ghost predicate Below(m: Aliases, n: Aliases) { forall x :: x in m ==> x in n && n[x] == m[x] }

  lemma {:induction false} ResolveMonotone(e: Expr, m: Aliases, n: Aliases)
    requires Below(m, n) && Resolve(e, m).Some?
    ensures Resolve(e, n) == Resolve(e, m)
  {
    match e
    case Add(left, right) =>
      ResolveMonotone(left, m, n);
      ResolveMonotone(right, m, n);
    case _ =>
  }

  lemma {:induction false} AgreedMonotone(values: seq<Expr>, m: Aliases, n: Aliases)
    requires Below(m, n) && Agreed(values, m).Some?
    ensures Agreed(values, n) == Agreed(values, m)
  {
    ResolveMonotone(values[0], m, n);
    if |values| > 1 { AgreedMonotone(values[1..], m, n); }
  }

  /** Every name whose assignments agree under `m` has that value in `m`. */
  ghost predicate Closed(a: Assignments, m: Aliases) {
    forall x :: x in a && Agreed(a[x], m).Some? ==> x in m && m[x] == Agreed(a[x], m).value
  }

  /** The least alias map above `start` that is closed. */
  ghost predicate LeastFixpoint(a: Assignments, start: Aliases, m: Aliases) {
    && Below(start, m) && Closed(a, m)
    && forall n :: Below(start, n) && Closed(a, n) ==> Below(m, n)
  }

  lemma LeastFixpointUnique(a: Assignments, start: Aliases, m: Aliases, n: Aliases)
    requires LeastFixpoint(a, start, m) && LeastFixpoint(a, start, n)
    ensures m == n
  {
    assert Below(m, n) && Below(n, m);
  }

  // ----- the passes -----

  /** Visit a name: set it when its assignments agree. */
  function SetName(a: Assignments, m: Aliases, x: string): Aliases
    requires x in a
  {
    match Agreed(a[x], m) case Some(v) => m[x := v] case None => m
  }

  /** One pass over the assignments, in the order they were collected. */
  function PassFrom(a: Assignments, order: seq<string>, m: Aliases): Aliases
    requires forall x :: x in order ==> x in a
  {
    if order == [] then m else PassFrom(a, order[1..], SetName(a, m, order[0]))
  }

  function Iterate(a: Assignments, order: seq<string>, m: Aliases, n: nat): Aliases
    requires forall x :: x in order ==> x in a
  {
    if n == 0 then m else PassFrom(a, order, Iterate(a, order, m, n - 1))
  }

  ghost predicate Covers(order: seq<string>, a: Assignments) { forall x :: x in a <==> x in order }

  /** The assigned names, each once. */
  ghost predicate Lists(order: seq<string>, a: Assignments) { Covers(order, a) && Distinct(order) }

  predicate Settled(a: Assignments, m: Aliases, x: string)
    requires x in a
  {
    Agreed(a[x], m).Some? ==> x in m && m[x] == Agreed(a[x], m).value
  }

  lemma {:induction false} PassLeavesOthers(a: Assignments, order: seq<string>, m: Aliases, x: string)
    requires (forall y :: y in order ==> y in a) && x !in order
    ensures (x in PassFrom(a, order, m) <==> x in m) && (x in m ==> PassFrom(a, order, m)[x] == m[x])
  {
    if order != [] {
      PassLeavesOthers(a, order[1..], SetName(a, m, order[0]), x);
    }
  }

  /** A pass that changes nothing found every name settled. */
  lemma {:induction false} RestIsClosed(a: Assignments, order: seq<string>, m: Aliases, x: string)
    requires (forall y :: y in order ==> y in a) && Distinct(order) && PassFrom(a, order, m) == m && x in order
    ensures Settled(a, m, x)
  {
    var y := order[0];
    var next := SetName(a, m, y);
    assert y !in order[1..];
    PassLeavesOthers(a, order[1..], next, y);
    assert next == m;
    if x != y { RestIsClosed(a, order[1..], m, x); }
  }

  /** The first `k` passes all changed something. */
  ghost predicate Moving(a: Assignments, order: seq<string>, start: Aliases, k: nat)
    requires Covers(order, a)
  {
    k > 0 ==>
      && Moving(a, order, start, k - 1)
      && PassFrom(a, order, Iterate(a, order, start, k - 1)) != Iterate(a, order, start, k - 1)
  }

  lemma {:induction false} MovingBefore(a: Assignments, order: seq<string>, start: Aliases, n: nat, k: nat)
    requires Covers(order, a) && n < k && Moving(a, order, start, k)
    ensures PassFrom(a, order, Iterate(a, order, start, n)) != Iterate(a, order, start, n)
  {
    if n < k - 1 { MovingBefore(a, order, start, n, k - 1); }
  }

  lemma {:induction false} FirstRest(a: Assignments, order: seq<string>, start: Aliases, k: nat) returns (n: nat)
    requires Covers(order, a) && !Moving(a, order, start, k)
    ensures n < k && Moving(a, order, start, n)
    ensures PassFrom(a, order, Iterate(a, order, start, n)) == Iterate(a, order, start, n)
  {
    if Moving(a, order, start, k - 1) { n := k - 1; } else { n := FirstRest(a, order, start, k - 1); }
  }

  lemma {:induction false} RestStays(a: Assignments, order: seq<string>, start: Aliases, n: nat, k: nat)
    requires Covers(order, a) && n <= k
             && PassFrom(a, order, Iterate(a, order, start, n)) == Iterate(a, order, start, n)
    ensures Iterate(a, order, start, k) == Iterate(a, order, start, n)
  {
    if n < k { RestStays(a, order, start, n, k - 1); }
  }

  // ----- compatible scopes: the least fixpoint -----

  /** `m` has been reached from `start` by setting names to agreed values only: it is above `start`,
      below every closed map above `start`, and everything it added is still what the assignments
      agree on. */
  ghost predicate Grown(a: Assignments, start: Aliases, m: Aliases) {
    && Below(start, m)
    && (forall x :: x in m && x !in start ==> x in a && Agreed(a[x], m) == Some(m[x]))
    && (forall n :: Below(start, n) && Closed(a, n) ==> Below(m, n))
  }

  /** Some closed map lies above `start`: no inherited value is contradicted by what the assignments
      of its name end up agreeing on. */
  ghost predicate Compatible(a: Assignments, start: Aliases) { exists n :: Below(start, n) && Closed(a, n) }

  /** No assigned name is inherited, or the inherited values are compatible with the assignments. */
  ghost predicate Fits(a: Assignments, start: Aliases) { a.Keys !! start.Keys || Compatible(a, start) }

  lemma SetOne(a: Assignments, start: Aliases, m: Aliases, x: string)
    requires Grown(a, start, m) && Fits(a, start) && x in a && Agreed(a[x], m).Some?
    ensures x in m ==> m[x] == Agreed(a[x], m).value
    ensures x !in m ==> Below(m, m[x := Agreed(a[x], m).value]) && Grown(a, start, m[x := Agreed(a[x], m).value])
  {
    if x in start {
      var n :| Below(start, n) && Closed(a, n);
      AgreedMonotone(a[x], m, n);
    } else if x !in m {
      var v := Agreed(a[x], m).value;
      var n := m[x := v];
      forall y | y in n && y !in start ensures y in a && Agreed(a[y], n) == Some(n[y]) {
        AgreedMonotone(a[y], m, n);
      }
      forall k | Below(start, k) && Closed(a, k) ensures Below(n, k) {
        AgreedMonotone(a[x], m, k);
      }
    }
  }

  lemma BelowSmaller(m: Aliases, n: Aliases)
    requires Below(m, n) && m != n
    ensures |m.Keys| < |n.Keys|
  {
    SubsetSize(m.Keys, n.Keys);
  }

  lemma SetNameGrows(a: Assignments, start: Aliases, m: Aliases, x: string)
    requires x in a && Fits(a, start) && Grown(a, start, m)
    ensures Grown(a, start, SetName(a, m, x)) && Below(m, SetName(a, m, x))
    ensures SetName(a, m, x) == m ==> Settled(a, m, x)
  {
    if Agreed(a[x], m).Some? {
      SetOne(a, start, m, x);
      if x in m { assert m[x := m[x]] == m; }
    }
  }

  lemma {:induction false} PassGrows(a: Assignments, order: seq<string>, start: Aliases, m: Aliases)
    requires (forall x :: x in order ==> x in a) && Fits(a, start) && Grown(a, start, m)
    ensures Grown(a, start, PassFrom(a, order, m)) && Below(m, PassFrom(a, order, m))
  {
    if order != [] {
      SetNameGrows(a, start, m, order[0]);
      PassGrows(a, order[1..], start, SetName(a, m, order[0]));
    }
  }

  /** Below both ways is equality, so a pass that ends where it began never left. */
  lemma {:induction false} GrowingPassAtRest(a: Assignments, order: seq<string>, start: Aliases, m: Aliases, x: string)
    requires (forall y :: y in order ==> y in a) && Fits(a, start) && Grown(a, start, m)
    requires PassFrom(a, order, m) == m && x in order
    ensures Settled(a, m, x)
  {
    var next := SetName(a, m, order[0]);
    SetNameGrows(a, start, m, order[0]);
    PassGrows(a, order[1..], start, next);
    assert next == m;
    if x != order[0] { GrowingPassAtRest(a, order[1..], start, m, x); }
  }

  lemma GrownKeys(a: Assignments, start: Aliases, m: Aliases)
    requires Grown(a, start, m)
    ensures |m.Keys| <= |start.Keys + a.Keys|
  {
    SubsetSize(m.Keys, start.Keys + a.Keys);
  }

  /** A pass from `m` changes nothing, and `m` is the least fixpoint. */
  ghost predicate AtRest(a: Assignments, order: seq<string>, start: Aliases, m: Aliases)
    requires Covers(order, a)
  {
    PassFrom(a, order, m) == m && LeastFixpoint(a, start, m)
  }

  lemma RestIsLeast(a: Assignments, order: seq<string>, start: Aliases, m: Aliases)
    requires Covers(order, a) && Fits(a, start) && Grown(a, start, m) && PassFrom(a, order, m) == m
    ensures LeastFixpoint(a, start, m) && AtRest(a, order, start, m)
  {
    forall x | x in a ensures Settled(a, m, x) { GrowingPassAtRest(a, order, start, m, x); }
  }

  lemma {:induction false} IterateGrows(a: Assignments, order: seq<string>, start: Aliases, k: nat)
    requires Covers(order, a) && Fits(a, start)
    ensures Grown(a, start, Iterate(a, order, start, k))
  {
    if k > 0 {
      IterateGrows(a, order, start, k - 1);
      PassGrows(a, order, start, Iterate(a, order, start, k - 1));
    }
  }

  lemma PassMakesProgress(a: Assignments, order: seq<string>, start: Aliases, k: nat)
    requires Covers(order, a) && Fits(a, start)
    requires PassFrom(a, order, Iterate(a, order, start, k)) != Iterate(a, order, start, k)
    ensures |Iterate(a, order, start, k).Keys| < |Iterate(a, order, start, k + 1).Keys|
  {
    var m := Iterate(a, order, start, k);
    IterateGrows(a, order, start, k);
    PassGrows(a, order, start, m);
    BelowSmaller(m, PassFrom(a, order, m));
  }

  lemma UnionSize(a: set<string>, b: set<string>)
    ensures |a + b| <= |a| + |b|
  {
    assert a + b == a + (b - a);
    SubsetSize(b - a, b);
  }

  lemma {:induction false} MovingCounts(a: Assignments, order: seq<string>, start: Aliases, k: nat)
    requires Covers(order, a) && Fits(a, start) && Moving(a, order, start, k)
    ensures |start.Keys| + k <= |Iterate(a, order, start, k).Keys|
  {
    if k > 0 {
      MovingCounts(a, order, start, k - 1);
      PassMakesProgress(a, order, start, k - 1);
    }
  }

  lemma CompatibleBound(a: Assignments, order: seq<string>, start: Aliases, k: nat)
    requires Covers(order, a) && Fits(a, start) && Moving(a, order, start, k)
    ensures k <= |a.Keys|
  {
    MovingCounts(a, order, start, k);
    IterateGrows(a, order, start, k);
    GrownKeys(a, start, Iterate(a, order, start, k));
    UnionSize(start.Keys, a.Keys);
  }

  /** The passes come to rest in the least fixpoint. */
  lemma ComesToRest(a: Assignments, order: seq<string>, start: Aliases) returns (n: nat)
    requires Covers(order, a) && Fits(a, start)
    ensures n <= |a.Keys| && AtRest(a, order, start, Iterate(a, order, start, n))
  {
    var k := |a.Keys| + 1;
    if Moving(a, order, start, k) { CompatibleBound(a, order, start, k); }
    n := FirstRest(a, order, start, k);
    IterateGrows(a, order, start, n);
    RestIsLeast(a, order, start, Iterate(a, order, start, n));
  }

  /** After `n` passes nothing changes any more, and every inherited value is still there. */
  ghost predicate RestsUnharmed(a: Assignments, order: seq<string>, start: Aliases, n: nat)
    requires Covers(order, a)
  {
    PassFrom(a, order, Iterate(a, order, start, n)) == Iterate(a, order, start, n)
      && Below(start, Iterate(a, order, start, n))
  }

  /** The passes come to rest without having overwritten an inherited value exactly when the inherited
      values are compatible with the assignments. */
  lemma RestsIffCompatible(a: Assignments, order: seq<string>, start: Aliases)
    requires Covers(order, a) && Distinct(order)
    ensures Compatible(a, start) <==> exists n: nat :: RestsUnharmed(a, order, start, n)
  {
    if Compatible(a, start) {
      var n := ComesToRest(a, order, start);
      assert RestsUnharmed(a, order, start, n);
    }
    if n: nat :| RestsUnharmed(a, order, start, n) {
      var m := Iterate(a, order, start, n);
      forall x | x in a ensures Settled(a, m, x) { RestIsClosed(a, order, m, x); }
      assert Closed(a, m);
    }
  }

  // ----- ranked scopes: any inherited map -----

  /** What name number `i` is assigned refers only to names listed before it, or not assigned. */
  ghost predicate RefersBelow(a: Assignments, rank: seq<string>, i: nat)
    requires i < |rank| && rank[i] in a
  {
    forall y :: y in RefersAny(a[rank[i]]) && y in a ==> y in rank[..i]
  }

  /** The names can be listed so that each value refers only to names listed before, or not assigned. */
  ghost predicate Ranked(a: Assignments, rank: seq<string>) {
    Lists(rank, a) && forall i :: 0 <= i < |rank| ==> RefersBelow(a, rank, i)
  }

  /** A visit whose references the rest of the pass leaves alone decides the name. */
  lemma {:induction false} PassSets(a: Assignments, order: seq<string>, m: Aliases, x: string)
    requires (forall y :: y in order ==> y in a) && Distinct(order) && x in order && x !in RefersAny(a[x])
    requires SameOn(m, PassFrom(a, order, m), RefersAny(a[x]))
    ensures Same(PassFrom(a, order, m), SetName(a, m, x), x)
  {
    var first, rest := order[0], order[1..];
    var next, end := SetName(a, m, first), PassFrom(a, order, m);
    assert first !in rest;
    PassLeavesOthers(a, rest, next, first);
    if x != first {
      assert forall y :: y != first ==> Same(m, next, y);
      forall y | y in RefersAny(a[x]) ensures Same(m, next, y) && Same(next, end, y) { assert Same(m, end, y); }
      AgreedSame(a[x], m, next);
      PassSets(a, rest, next, x);
    }
  }

  /** A pass from `m` leaves the first `j` names of the ranking alone. */
  ghost predicate Steady(a: Assignments, order: seq<string>, rank: seq<string>, m: Aliases, j: nat)
    requires (forall x :: x in order ==> x in a) && j <= |rank|
  {
    forall i :: 0 <= i < j ==> Same(m, PassFrom(a, order, m), rank[i])
  }

  lemma ReferencesRest(a: Assignments, order: seq<string>, m: Aliases, rank: seq<string>, j: nat)
    requires Ranked(a, rank) && Lists(order, a) && j < |rank| && Steady(a, order, rank, m, j)
    ensures SameOn(m, PassFrom(a, order, m), RefersAny(a[rank[j]])) && rank[j] !in RefersAny(a[rank[j]])
  {
    assert rank[j] !in rank[..j] && RefersBelow(a, rank, j);
    forall y | y in RefersAny(a[rank[j]]) ensures Same(m, PassFrom(a, order, m), y) {
      if y !in a { PassLeavesOthers(a, order, m, y); }
    }
  }

  /** Two passes after its references came to rest a name has come to rest. */
  lemma NameRests(a: Assignments, order: seq<string>, m: Aliases, x: string)
    requires Lists(order, a) && x in a && x !in RefersAny(a[x])
    requires SameOn(m, PassFrom(a, order, m), RefersAny(a[x]))
    requires var n := PassFrom(a, order, m); SameOn(n, PassFrom(a, order, n), RefersAny(a[x]))
    ensures var n := PassFrom(a, order, m); Same(n, PassFrom(a, order, n), x)
  {
    var n := PassFrom(a, order, m);
    PassSets(a, order, m, x);
    PassSets(a, order, n, x);
    AgreedSame(a[x], m, n);
  }

  lemma SteadyStep(a: Assignments, order: seq<string>, rank: seq<string>, m: Aliases, j: nat)
    requires Ranked(a, rank) && Lists(order, a) && j < |rank|
    requires Steady(a, order, rank, m, j) && Steady(a, order, rank, PassFrom(a, order, m), j)
    ensures Steady(a, order, rank, PassFrom(a, order, m), j + 1)
  {
    ReferencesRest(a, order, m, rank, j);
    ReferencesRest(a, order, PassFrom(a, order, m), rank, j);
    NameRests(a, order, m, rank[j]);
  }

  /** The first `j` names stay where they are in pass `k + 1`. */
  ghost predicate SteadyAt(
    a: Assignments, order: seq<string>, start: Aliases, rank: seq<string>, j: nat, k: nat)
    requires (forall x :: x in order ==> x in a) && j <= |rank|
  {
    Steady(a, order, rank, Iterate(a, order, start, k), j)
  }

  lemma NoneSteady(a: Assignments, order: seq<string>, start: Aliases, rank: seq<string>, k: nat)
    requires forall x :: x in order ==> x in a
    ensures SteadyAt(a, order, start, rank, 0, k)
  {
  }

  lemma SteadyAtStep(a: Assignments, order: seq<string>, start: Aliases, rank: seq<string>, j: nat, k: nat)
    requires Ranked(a, rank) && Lists(order, a) && 0 < j <= |rank| && k > 0
    requires SteadyAt(a, order, start, rank, j - 1, k - 1) && SteadyAt(a, order, start, rank, j - 1, k)
    ensures SteadyAt(a, order, start, rank, j, k)
  {
    SteadyStep(a, order, rank, Iterate(a, order, start, k - 1), j - 1);
  }

  /** After `k` passes the first `k` names of a ranking have come to rest. */
  lemma {:induction false} RankRests(
    a: Assignments, order: seq<string>, start: Aliases, rank: seq<string>, j: nat, k: nat)
    requires Ranked(a, rank) && Lists(order, a) && j <= |rank| && j <= k
    ensures SteadyAt(a, order, start, rank, j, k)
  {
    if j == 0 {
      NoneSteady(a, order, start, rank, k);
    } else {
      RankRests(a, order, start, rank, j - 1, k - 1);
      RankRests(a, order, start, rank, j - 1, k);
      SteadyAtStep(a, order, start, rank, j, k);
    }
  }

  /** In a ranked scope the passes come to rest within one pass per assigned name, whatever is
      inherited and in whatever order the names are visited. */
  lemma RankedRests(a: Assignments, order: seq<string>, start: Aliases, rank: seq<string>)
    requires Ranked(a, rank) && Lists(order, a)
    ensures var r := Iterate(a, order, start, |a.Keys|); PassFrom(a, order, r) == r
  {
    DistinctSize(rank, a.Keys);
    var r := Iterate(a, order, start, |a.Keys|);
    RankRests(a, order, start, rank, |rank|, |a.Keys|);
    forall x ensures Same(r, PassFrom(a, order, r), x) {
      if x in a {
        var i :| 0 <= i < |rank| && rank[i] == x;
        assert Same(r, PassFrom(a, order, r), rank[i]);
      } else {
        PassLeavesOthers(a, order, r, x);
      }
    }
    SameEverywhere(r, PassFrom(a, order, r));
  }

  /** The passes are known to stop. */
  ghost predicate Stops(a: Assignments, start: Aliases) { Fits(a, start) || exists rank :: Ranked(a, rank) }

  lemma MovingBound(a: Assignments, order: seq<string>, start: Aliases, k: nat)
    requires Lists(order, a) && Stops(a, start) && Moving(a, order, start, k)
    ensures k <= |a.Keys|
  {
    if Fits(a, start) {
      CompatibleBound(a, order, start, k);
    } else {
      var rank :| Ranked(a, rank);
      RankedRests(a, order, start, rank);
      if k > |a.Keys| { MovingBefore(a, order, start, |a.Keys|, k); }
    }
  }

  // ----- ranked scopes: the result -----

  /** What a pass in rank order leaves at a name: what the assignments agree on, or what was inherited. */
  predicate Decided(a: Assignments, start: Aliases, m: Aliases, x: string)
    requires x in a
  {
    match Agreed(a[x], m) case Some(v) => x in m && m[x] == v case None => Same(m, start, x)
  }

  /** No name of the list refers to itself or to a later one. */
  ghost predicate Upward(a: Assignments, tail: seq<string>)
    requires forall x :: x in tail ==> x in a
  {
    tail != [] ==> RefersAny(a[tail[0]]) !! (set x | x in tail) && tail[0] !in tail[1..] && Upward(a, tail[1..])
  }

  lemma {:induction false} RankedUpward(a: Assignments, rank: seq<string>, i: nat)
    requires Ranked(a, rank) && i <= |rank|
    ensures Upward(a, rank[i..])
    decreases |rank| - i
  {
    if i < |rank| {
      RankedUpward(a, rank, i + 1);
      assert rank[i..][0] == rank[i] && rank[i..][1..] == rank[i + 1..];
      forall y | y in RefersAny(a[rank[i]]) ensures y !in rank[i..] {
        assert RefersBelow(a, rank, i);
        if y in a { assert y in rank[..i]; }
      }
    }
  }

  lemma {:induction false} RankPass(a: Assignments, tail: seq<string>, m: Aliases, x: string)
    requires (forall y :: y in tail ==> y in a) && Upward(a, tail) && x in tail
    ensures Decided(a, m, PassFrom(a, tail, m), x)
  {
    var next, end := SetName(a, m, tail[0]), PassFrom(a, tail, m);
    if x == tail[0] {
      PassLeavesOthers(a, tail[1..], next, x);
      forall y | y in RefersAny(a[x]) ensures Same(m, end, y) { PassLeavesOthers(a, tail, m, y); }
      AgreedSame(a[x], m, end);
    } else {
      RankPass(a, tail[1..], next, x);
      assert Same(next, m, x);
    }
  }

  lemma RankOrderDecides(a: Assignments, rank: seq<string>, start: Aliases, x: string)
    requires Ranked(a, rank) && x in a
    ensures Decided(a, start, PassFrom(a, rank, start), x)
  {
    assert rank[0..] == rank;
    RankedUpward(a, rank, 0);
    RankPass(a, rank, start, x);
  }

  /** A name decided by rank order is the same in a resting map that agrees on what it refers to. */
  lemma SameName(a: Assignments, start: Aliases, f: Aliases, r: Aliases, x: string)
    requires x in a && Decided(a, start, f, x) && Settled(a, r, x) && SameOn(r, f, RefersAny(a[x]))
    requires Agreed(a[x], f).None? ==> Same(r, start, x)
    ensures Same(r, f, x)
  {
    AgreedSame(a[x], r, f);
  }

  lemma RankedReferences(a: Assignments, rank: seq<string>, r: Aliases, f: Aliases, start: Aliases, j: nat)
    requires Ranked(a, rank) && j < |rank|
    requires forall y :: y !in a ==> Same(r, start, y) && Same(f, start, y)
    requires forall i :: 0 <= i < j ==> Same(r, f, rank[i])
    ensures SameOn(r, f, RefersAny(a[rank[j]]))
  {
    assert RefersBelow(a, rank, j);
    forall y | y in RefersAny(a[rank[j]]) ensures Same(r, f, y) {
      if y in a {
        var i :| 0 <= i < j && rank[..j][i] == y;
        assert Same(r, f, rank[i]);
      } else {
        assert Same(r, start, y) && Same(f, start, y);
      }
    }
  }

  /** Names whose assignments agree in the result of rank order have the same value in every order. */
  lemma {:induction false} SameByRank(
    a: Assignments, order: seq<string>, start: Aliases, rank: seq<string>, r: Aliases, f: Aliases, j: nat)
    requires Ranked(a, rank) && Lists(order, a) && j <= |rank| && PassFrom(a, order, r) == r
    requires forall y :: y !in a ==> Same(r, start, y) && Same(f, start, y)
    requires forall x :: x in a ==> Decided(a, start, f, x) && (Agreed(a[x], f).None? ==> Same(r, start, x))
    ensures forall i :: 0 <= i < j ==> Same(r, f, rank[i])
  {
    if j > 0 {
      var x := rank[j - 1];
      SameByRank(a, order, start, rank, r, f, j - 1);
      RankedReferences(a, rank, r, f, start, j - 1);
      RestIsClosed(a, order, r, x);
      SameName(a, start, f, r, x);
    }
  }

  lemma {:induction false} UnassignedStays(a: Assignments, order: seq<string>, start: Aliases, n: nat, y: string)
    requires Lists(order, a) && y !in a
    ensures Same(Iterate(a, order, start, n), start, y)
  {
    if n > 0 {
      UnassignedStays(a, order, start, n - 1, y);
      PassLeavesOthers(a, order, Iterate(a, order, start, n - 1), y);
    }
  }

  /** The result of an order is that of rank order exactly when every name whose assignments do not
      agree there was left as inherited. */
  lemma RankedResult(a: Assignments, order: seq<string>, start: Aliases, rank: seq<string>)
    requires Ranked(a, rank) && Lists(order, a)
    ensures var r, f := Iterate(a, order, start, |a.Keys|), PassFrom(a, rank, start);
            r == f <==> forall x :: x in a && Agreed(a[x], f).None? ==> Same(r, start, x)
  {
    var r, f := Iterate(a, order, start, |a.Keys|), PassFrom(a, rank, start);
    forall x | x in a ensures Decided(a, start, f, x) { RankOrderDecides(a, rank, start, x); }
    if forall x :: x in a && Agreed(a[x], f).None? ==> Same(r, start, x) {
      RankedRests(a, order, start, rank);
      forall y | y !in a ensures Same(r, start, y) && Same(f, start, y) {
        UnassignedStays(a, order, start, |a.Keys|, y);
        PassLeavesOthers(a, rank, start, y);
      }
      SameByRank(a, order, start, rank, r, f, |rank|);
      forall x ensures Same(r, f, x) {
        if x in a { var i :| 0 <= i < |rank| && rank[i] == x; }
      }
      SameEverywhere(r, f);
    }
  }

  /** The value resolves under no map that knows only these names. */
  predicate Hopeless(e: Expr, known: set<string>) {
    match e
    case Name(id) => id !in known
    case Add(left, right) => Hopeless(left, known) || Hopeless(right, known)
    case _ => Resolve(e, map[]).None?
  }

  lemma {:induction false} HopelessNeverResolves(e: Expr, known: set<string>, m: Aliases)
    requires Hopeless(e, known) && m.Keys <= known
    ensures Resolve(e, m).None?
  {
    match e
    case Add(left, right) =>
      if Hopeless(left, known) {
        HopelessNeverResolves(left, known, m);
      } else {
        HopelessNeverResolves(right, known, m);
      }
    case _ =>
  }

  lemma {:induction false} HopelessNeverAgrees(values: seq<Expr>, e: Expr, known: set<string>, m: Aliases)
    requires e in values && Hopeless(e, known) && m.Keys <= known
    ensures Agreed(values, m).None?
  {
    if values[0] == e { HopelessNeverResolves(e, known, m); } else { HopelessNeverAgrees(values[1..], e, known, m); }
  }

  /** A caller's check: after one pass in rank order the assignments of each name agree, or one of them
      cannot resolve. */
  predicate Definite(a: Assignments, f: Aliases) {
    forall x :: x in a && Agreed(a[x], f).None? ==> exists e :: e in a[x] && Hopeless(e, f.Keys)
  }

  /** Only names of `f` are known, and those without an agreed value are as inherited. */
  ghost predicate Held(a: Assignments, start: Aliases, f: Aliases, m: Aliases) {
    m.Keys <= f.Keys && forall x :: x in a && Agreed(a[x], f).None? ==> Same(m, start, x)
  }

  lemma {:induction false} PassHolds(a: Assignments, order: seq<string>, start: Aliases, f: Aliases, m: Aliases)
    requires (forall x :: x in order ==> x in a) && Definite(a, f) && Held(a, start, f, m)
    requires forall x :: x in a && Agreed(a[x], f).Some? ==> x in f
    ensures Held(a, start, f, PassFrom(a, order, m))
  {
    if order != [] {
      var x := order[0];
      if Agreed(a[x], f).None? {
        var e :| e in a[x] && Hopeless(e, f.Keys);
        HopelessNeverAgrees(a[x], e, f.Keys, m);
      }
      PassHolds(a, order[1..], start, f, SetName(a, m, x));
    }
  }

  lemma {:induction false} IterateHolds(a: Assignments, order: seq<string>, start: Aliases, f: Aliases, n: nat)
    requires Lists(order, a) && Definite(a, f) && Held(a, start, f, start)
    requires forall x :: x in a && Agreed(a[x], f).Some? ==> x in f
    ensures Held(a, start, f, Iterate(a, order, start, n))
  {
    if n > 0 {
      IterateHolds(a, order, start, f, n - 1);
      PassHolds(a, order, start, f, Iterate(a, order, start, n - 1));
    }
  }

  lemma {:induction false} PassKeepsKeys(a: Assignments, order: seq<string>, m: Aliases)
    requires forall x :: x in order ==> x in a
    ensures m.Keys <= PassFrom(a, order, m).Keys
  {
    if order != [] { PassKeepsKeys(a, order[1..], SetName(a, m, order[0])); }
  }

  /** Then every order gives the result of rank order. */
  lemma DefiniteResult(a: Assignments, order: seq<string>, start: Aliases, rank: seq<string>)
    requires Ranked(a, rank) && Lists(order, a) && Definite(a, PassFrom(a, rank, start))
    ensures Iterate(a, order, start, |a.Keys|) == PassFrom(a, rank, start)
  {
    var f := PassFrom(a, rank, start);
    forall x | x in a ensures Decided(a, start, f, x) { RankOrderDecides(a, rank, start, x); }
    PassKeepsKeys(a, rank, start);
    IterateHolds(a, order, start, f, |a.Keys|);
    RankedResult(a, order, start, rank);
  }

  /** Without the check the order can matter: two values of a name may agree only until an inherited
      name is rebound. The scope is `y = q; x = y; x = p` with `y` inherited as `p`. */
  lemma OrderCanMatter(p: string, q: string)
    requires p != q
    ensures var a: Assignments := map["x" := [Name("y"), Literal(p)], "y" := [Literal(q)]];
            var start: Aliases := map["y" := p];
            && Ranked(a, ["y", "x"]) && Lists(["x", "y"], a)
            && Iterate(a, ["x", "y"], start, |a.Keys|) == map["x" := p, "y" := q]
            && Iterate(a, ["y", "x"], start, |a.Keys|) == map["y" := q]
  {
    var a: Assignments := map["x" := [Name("y"), Literal(p)], "y" := [Literal(q)]];
    var start: Aliases := map["y" := p];
    OrderInstanceRanked(a, p, q);
    assert a.Keys == {"x", "y"} && |a.Keys| == 2;
    TwoPasses(a, p, q, start);
    assert map["y" := p]["x" := p]["y" := q] == map["x" := p, "y" := q];
    assert map["y" := p]["y" := q] == map["y" := q];
  }

  lemma TwoPasses(a: Assignments, p: string, q: string, start: Aliases)
    requires OrderInstance(a, p, q) && p != q && start.Keys == {"y"} && start["y"] == p
    ensures Iterate(a, ["x", "y"], start, 2) == start["x" := p]["y" := q]
            && Iterate(a, ["y", "x"], start, 2) == start["y" := q]
  {
    var m, n := start["x" := p]["y" := q], start["y" := q];
    OrderInstancePass(a, p, q, start);
    OrderInstancePass(a, p, q, m);
    OrderInstancePass(a, p, q, n);
    assert m["y" := q] == m && n["y" := q] == n;
    IterateTwice(a, ["x", "y"], start);
    IterateTwice(a, ["y", "x"], start);
  }

  lemma IterateTwice(a: Assignments, order: seq<string>, start: Aliases)
    requires forall x :: x in order ==> x in a
    ensures Iterate(a, order, start, 2) == PassFrom(a, order, PassFrom(a, order, start))
  {
    assert Iterate(a, order, start, 1) == PassFrom(a, order, Iterate(a, order, start, 0));
  }

  predicate OrderInstance(a: Assignments, p: string, q: string) {
    a.Keys == {"x", "y"} && a["x"] == [Name("y"), Literal(p)] && a["y"] == [Literal(q)]
  }

  lemma OrderInstanceRanked(a: Assignments, p: string, q: string)
    requires OrderInstance(a, p, q)
    ensures Ranked(a, ["y", "x"]) && Lists(["x", "y"], a)
  {
    assert "x"[0] != "y"[0];
    assert ["y", "x"][..1] == ["y"];
    assert a["x"][1..] == [Literal(p)] && [Literal(p)][1..] == [] && [Literal(q)][1..] == [];
    LoneLiteral(p);
    LoneLiteral(q);
    assert RefersAny(a["x"]) == Refers(Name("y")) + RefersAny([Literal(p)]);
  }

  lemma LoneLiteral(text: string)
    ensures RefersAny([Literal(text)]) == {}
  {
    assert [Literal(text)][1..] == [];
  }

  lemma OrderInstanceValues(a: Assignments, p: string, q: string, m: Aliases)
    requires OrderInstance(a, p, q)
    ensures Agreed(a["x"], m) == if "y" in m && m["y"] == p then Some(p) else None
    ensures Agreed(a["y"], m) == Some(q)
  {
    assert a["x"][1..] == [Literal(p)];
    assert Agreed([Literal(p)], m) == Some(p);
  }

  lemma OrderInstancePass(a: Assignments, p: string, q: string, m: Aliases)
    requires OrderInstance(a, p, q) && p != q
    ensures PassFrom(a, ["x", "y"], m) == (if "y" in m && m["y"] == p then m["x" := p] else m)["y" := q]
    ensures PassFrom(a, ["y", "x"], m) == m["y" := q]
  {
    var n := SetName(a, m, "x");
    OrderInstanceValues(a, p, q, m);
    OrderInstanceValues(a, p, q, n);
    OrderInstanceValues(a, p, q, m["y" := q]);
    TwoNames(a, "x", "y", m);
    TwoNames(a, "y", "x", m);
  }

  lemma TwoNames(a: Assignments, x: string, y: string, m: Aliases)
    requires x in a && y in a
    ensures PassFrom(a, [x, y], m) == SetName(a, SetName(a, m, x), y)
  {
    var n := SetName(a, m, x);
    assert [x, y][1..] == [y] && [y][1..] == [];
    assert PassFrom(a, [y], n) == PassFrom(a, [], SetName(a, n, y));
  }

  // ----- the loop -----

  /** One pass over the assignments. */
  method Pass(a: Assignments, order: seq<string>, before: Aliases) returns (m: Aliases, changed: bool)
    requires Lists(order, a)
    ensures m == PassFrom(a, order, before) && (changed <==> m != before)
  {
    m, changed := before, false;
    for i := 0 to |order|
      invariant PassFrom(a, order[i..], m) == PassFrom(a, order, before)
      invariant forall j :: i <= j < |order| ==> Same(m, before, order[j])
      invariant changed <==> m != before
    {
      var x := order[i];
      PassVisit(a, order, m, i);
      assert Same(m, before, x);
      var resolved := Agreed(a[x], m);
      if resolved.Some? && (x !in m || m[x] != resolved.value) {
        m := m[x := resolved.value];
        changed := true;
        assert !Same(m, before, x);
      }
    }
    assert order[|order|..] == [];
  }

  lemma PassVisit(a: Assignments, order: seq<string>, m: Aliases, i: nat)
    requires Lists(order, a) && i < |order|
    ensures var x := order[i];
            var resolved := Agreed(a[x], m);
            PassFrom(a, order[i..], m) ==
            PassFrom(a, order[i + 1..],
                     if resolved.Some? && (x !in m || m[x] != resolved.value) then m[x := resolved.value] else m)
  {
    var x := order[i];
    assert order[i..][0] == x && order[i..][1..] == order[i + 1..];
    var resolved := Agreed(a[x], m);
    if resolved.Some? && x in m && m[x] == resolved.value { assert m[x := resolved.value] == m; }
  }

  /** The `while changed` loop. It stops within one pass per assigned name plus a last one that changes
      nothing, whenever the scope is ranked or the inherited values are compatible with it; in the
      second case it never changes a value once set and ends in the least fixpoint. */
  method Propagate(a: Assignments, order: seq<string>, start: Aliases) returns (m: Aliases, ghost passes: nat)
    requires Lists(order, a) && Stops(a, start)
    ensures passes <= |a.Keys| + 1
    ensures m == Iterate(a, order, start, |a.Keys|) && PassFrom(a, order, m) == m
    ensures forall y :: y !in a ==> Same(m, start, y)
    ensures HoldsTexts(a, m)
    ensures Fits(a, start) ==> Below(start, m) && LeastFixpoint(a, start, m)
    ensures forall rank :: Ranked(a, rank) && Definite(a, PassFrom(a, rank, start)) ==> m == PassFrom(a, rank, start)
  {
    m, passes := Loop(a, order, start);
    WhatRests(a, order, start);
    RestHoldsTexts(a, order, m);
  }

  method Loop(a: Assignments, order: seq<string>, start: Aliases) returns (m: Aliases, ghost passes: nat)
    requires Lists(order, a) && Stops(a, start)
    ensures passes <= |a.Keys| + 1
    ensures m == Iterate(a, order, start, |a.Keys|) && PassFrom(a, order, m) == m
  {
    m, passes := start, 0;
    var changed := true;
    while changed
      invariant m == Iterate(a, order, start, passes)
      invariant changed ==> Moving(a, order, start, passes) && passes <= |a.Keys|
      invariant !changed ==>
                  && 0 < passes <= |a.Keys| + 1 && m == Iterate(a, order, start, passes - 1)
                  && PassFrom(a, order, m) == m
      decreases |a.Keys| + 1 - passes
    {
      m, changed := Pass(a, order, m);
      passes := passes + 1;
      if changed { MovingBound(a, order, start, passes); }
    }
    RestStays(a, order, start, passes - 1, |a.Keys|);
  }

  lemma RestHoldsTexts(a: Assignments, order: seq<string>, m: Aliases)
    requires Lists(order, a) && PassFrom(a, order, m) == m
    ensures HoldsTexts(a, m)
  {
    forall x, text | x in a && AllDenote(a[x], m, text) ensures x in m && m[x] == text {
      AgreedDenotes(a[x], m, text);
      RestIsClosed(a, order, m, x);
    }
  }

  /** What the map the passes rest in is. */
  lemma WhatRests(a: Assignments, order: seq<string>, start: Aliases)
    requires Lists(order, a)
    ensures var m := Iterate(a, order, start, |a.Keys|);
            && (forall y :: y !in a ==> Same(m, start, y))
            && (Fits(a, start) ==> Below(start, m) && LeastFixpoint(a, start, m))
            && (forall rank :: Ranked(a, rank) && Definite(a, PassFrom(a, rank, start)) ==>
               m == PassFrom(a, rank, start))
  {
    var m := Iterate(a, order, start, |a.Keys|);
    forall y | y !in a ensures Same(m, start, y) { UnassignedStays(a, order, start, |a.Keys|, y); }
    if Fits(a, start) {
      var n := ComesToRest(a, order, start);
      RestStays(a, order, start, n, |a.Keys|);
    }
    forall rank | Ranked(a, rank) && Definite(a, PassFrom(a, rank, start)) ensures m == PassFrom(a, rank, start) {
      DefiniteResult(a, order, start, rank);
    }
  }

  /** The privacy analyser starts from the empty map, so nothing needs to be assumed of the scope. */
  method PropagateFromNothing(a: Assignments, order: seq<string>) returns (m: Aliases)
    requires Lists(order, a)
    ensures LeastFixpoint(a, map[], m) && m.Keys <= a.Keys
    ensures HoldsTexts(a, m)
    ensures OnlyTexts(a, m)
  {
    ghost var passes;
    m, passes := Propagate(a, order, map[]);
    assert forall y :: y in m && y !in a ==> !Same(m, map[], y);
    LeastHoldsOnlyTexts(a, m);
  }

  lemma LeastHoldsOnlyTexts(a: Assignments, m: Aliases)
    requires LeastFixpoint(a, map[], m) && m.Keys <= a.Keys
    ensures OnlyTexts(a, m)
  {
    forall x | x in m ensures x in a && AllDenote(a[x], m, m[x]) {
      if Agreed(a[x], m) != Some(m[x]) { WithoutName(a, m, x); }
      AgreedDenotes(a[x], m, m[x]);
    }
  }

  /** A closed map that holds a name for no reason is not the least: without the name it is closed too. */
  lemma WithoutName(a: Assignments, m: Aliases, x: string)
    requires Closed(a, m) && x in m && x in a && Agreed(a[x], m) != Some(m[x])
    ensures Closed(a, m - {x}) && !Below(m, m - {x})
  {
    var n := m - {x};
    forall y | y in a && Agreed(a[y], n).Some? ensures y in n && n[y] == Agreed(a[y], n).value {
      AgreedMonotone(a[y], n, m);
    }
    assert x in m && x !in n;
  }

  /** When the inherited values are compatible, or the scope is ranked and definite, the result does not
      depend on the order in which the names are visited. */
  method OrderDoesNotMatter(a: Assignments, order: seq<string>, other: seq<string>, start: Aliases)
    returns (m: Aliases, n: Aliases)
    requires Lists(order, a) && Lists(other, a)
    requires Fits(a, start) || exists rank :: Ranked(a, rank) && Definite(a, PassFrom(a, rank, start))
    ensures m == n
  {
    ghost var passes;
    m, passes := Propagate(a, order, start);
    n, passes := Propagate(a, other, start);
    if Fits(a, start) { LeastFixpointUnique(a, start, m, n); }
  }

  // ----- inherited names -----

  /** `_inherited_string_aliases`. */
  function Inherited(parent: Aliases, module_: Aliases, locals: set<string>, globals: set<string>): (r: Aliases)
    ensures forall x :: x in r <==> if x in globals then x in module_ else x in parent && x !in locals
    ensures forall x :: x in r ==> r[x] == if x in globals then module_[x] else parent[x]
  {
    (map x | x in parent && x !in locals && x !in globals :: parent[x])
    + (map x | x in globals && x in module_ :: module_[x])
  }

  /** A scope that assigns only its own local names starts with none of them in the inherited map, so
      its inherited values are compatible; `locals` never holds a name declared global or nonlocal. */
  lemma LocalScopesAreCompatible(
    a: Assignments, order: seq<string>, parent: Aliases, module_: Aliases, locals: set<string>, globals: set<string>)
    requires Lists(order, a) && a.Keys <= locals && locals !! globals
    ensures Compatible(a, Inherited(parent, module_, locals, globals))
  {
    var start := Inherited(parent, module_, locals, globals);
    assert a.Keys !! start.Keys;
    var n := ComesToRest(a, order, start);
  }

  /** Each name of the list is assigned the next one, and the last the first. */
  ghost predicate Cycle(a: Assignments, names: seq<string>) {
    && Lists(names, a) && |names| >= 2
    && forall i :: 0 <= i < |names| ==> a[names[i]] == [Name(names[if i + 1 < |names| then i + 1 else 0])]
  }

  /** The names have these values. */
  predicate Holds(m: Aliases, names: seq<string>, values: seq<string>) {
    |values| == |names| && forall i :: 0 <= i < |names| ==> names[i] in m && m[names[i]] == values[i]
  }

  /** The values after a pass: all move up one place, and the last name takes the first one's new value. */
  function Turned(values: seq<string>): (r: seq<string>)
    requires |values| >= 2
    ensures |r| == |values|
  {
    values[1..] + [values[1]]
  }

  /** The values when the first `i` names have been visited. */
  function PartTurned(values: seq<string>, i: nat): (r: seq<string>)
    requires i <= |values| && |values| >= 2
    ensures |r| == |values| && forall j :: 0 <= j < |values| ==> r[j] == if j < i then Turned(values)[j] else values[j]
  {
    Turned(values)[..i] + values[i..]
  }

  /** All values but the first are the same. */
  predicate Uniform(values: seq<string>) { forall i :: 2 <= i < |values| ==> values[i] == values[1] }

  lemma TurnedUniform(values: seq<string>)
    requires |values| >= 2
    ensures Uniform(Turned(values)) <==> Uniform(values)
    ensures Turned(values) == values ==> Uniform(values)
    ensures Uniform(values) ==> Turned(Turned(values)) == Turned(values)
  {
    var r := Turned(values);
    assert forall i :: 0 <= i < |values| - 1 ==> r[i] == values[i + 1];
    if Uniform(r) {
      forall i | 2 <= i < |values| ensures values[i] == values[1] {
        assert r[i - 1] == values[i] && r[|r| - 1] == values[1];
      }
    }
    if r == values { UniformUpTo(values, |values| - 1); }
  }

  lemma {:induction false} UniformUpTo(values: seq<string>, k: nat)
    requires 1 <= k < |values| && Turned(values) == values
    ensures forall i :: 1 <= i <= k ==> values[i] == values[1]
  {
    if k > 1 {
      UniformUpTo(values, k - 1);
      assert Turned(values)[k - 1] == values[k];
    }
  }

  lemma {:induction false} CycleSuffix(a: Assignments, names: seq<string>, m: Aliases, values: seq<string>, i: nat)
    requires Cycle(a, names) && |values| == |names| && i <= |names| && Holds(m, names, PartTurned(values, i))
    ensures Holds(PassFrom(a, names[i..], m), names, Turned(values))
    decreases |names| - i
  {
    if i < |names| {
      CycleVisit(a, names, m, values, i);
      assert names[i..][0] == names[i] && names[i..][1..] == names[i + 1..];
      CycleSuffix(a, names, SetName(a, m, names[i]), values, i + 1);
    }
  }

  lemma TurnedAt(values: seq<string>, i: nat)
    requires i < |values| && |values| >= 2
    ensures PartTurned(values, i)[if i + 1 < |values| then i + 1 else 0] == Turned(values)[i]
  {
  }

  /** Changing one name's value in a list of distinct names. */
  lemma HoldsOneMore(m: Aliases, names: seq<string>, values: seq<string>, i: nat)
    requires Distinct(names) && |values| == |names| >= 2 && i < |names| && Holds(m, names, PartTurned(values, i))
    ensures Holds(m[names[i] := Turned(values)[i]], names, PartTurned(values, i + 1))
  {
    var n := m[names[i] := Turned(values)[i]];
    forall j | 0 <= j < |names| ensures names[j] in n && n[names[j]] == PartTurned(values, i + 1)[j] {
      if j != i { assert names[j] != names[i] && m[names[j]] == PartTurned(values, i)[j]; }
    }
  }

  lemma CycleVisit(a: Assignments, names: seq<string>, m: Aliases, values: seq<string>, i: nat)
    requires Cycle(a, names) && |values| == |names| && i < |names| && Holds(m, names, PartTurned(values, i))
    ensures Holds(SetName(a, m, names[i]), names, PartTurned(values, i + 1))
  {
    var next := if i + 1 < |names| then i + 1 else 0;
    TurnedAt(values, i);
    assert names[next] in m && m[names[next]] == Turned(values)[i];
    assert Agreed([Name(names[next])], m) == Some(Turned(values)[i]);
    HoldsOneMore(m, names, values, i);
  }

  lemma SameValues(m: Aliases, n: Aliases, names: seq<string>, v: seq<string>, w: seq<string>)
    requires Holds(m, names, v) && Holds(n, names, w) && forall x :: x !in names ==> Same(m, n, x)
    ensures m == n <==> v == w
  {
    if v == w {
      forall x ensures Same(m, n, x) {
        if x in names { var i :| 0 <= i < |names| && names[i] == x; }
      }
      SameEverywhere(m, n);
    }
    if m == n { assert forall i :: 0 <= i < |names| ==> v[i] == m[names[i]] == w[i]; }
  }

  lemma CyclePass(a: Assignments, names: seq<string>, m: Aliases, values: seq<string>)
    requires Cycle(a, names) && Holds(m, names, values)
    ensures Holds(PassFrom(a, names, m), names, Turned(values))
    ensures PassFrom(a, names, m) == m <==> Turned(values) == values
  {
    var n := PassFrom(a, names, m);
    assert names[0..] == names && PartTurned(values, 0) == values;
    CycleSuffix(a, names, m, values, 0);
    forall x | x !in names ensures Same(n, m, x) { PassLeavesOthers(a, names, m, x); }
    SameValues(n, m, names, Turned(values), values);
  }

  /** Without the condition the loop need not stop: when a scope rebinds inherited strings in a cycle and
      those after the first are not all equal, every pass changes the map. */
  lemma {:induction false} RotationNeverStops(
    a: Assignments, names: seq<string>, start: Aliases, values: seq<string>, n: nat) returns (now: seq<string>)
    requires Cycle(a, names) && Holds(start, names, values) && !Uniform(values)
    ensures Holds(Iterate(a, names, start, n), names, now) && !Uniform(now)
    ensures PassFrom(a, names, Iterate(a, names, start, n)) != Iterate(a, names, start, n)
  {
    if n == 0 {
      now := values;
    } else {
      var before := RotationNeverStops(a, names, start, values, n - 1);
      CyclePass(a, names, Iterate(a, names, start, n - 1), before);
      TurnedUniform(before);
      now := Turned(before);
    }
    CyclePass(a, names, Iterate(a, names, start, n), now);
    TurnedUniform(now);
  }

  ghost predicate RestsAfter(a: Assignments, order: seq<string>, start: Aliases, n: nat)
    requires Covers(order, a)
  {
    PassFrom(a, order, Iterate(a, order, start, n)) == Iterate(a, order, start, n)
  }

  /** A cycle of inherited strings comes to rest exactly when all of them but the first are equal; for
      two names that is always. */
  lemma CycleRestsIff(a: Assignments, names: seq<string>, start: Aliases, values: seq<string>)
    requires Cycle(a, names) && Holds(start, names, values)
    ensures (exists n: nat :: RestsAfter(a, names, start, n)) <==> Uniform(values)
  {
    if Uniform(values) {
      CyclePass(a, names, start, values);
      TurnedUniform(values);
      CyclePass(a, names, PassFrom(a, names, start), Turned(values));
      assert Iterate(a, names, start, 1) == PassFrom(a, names, Iterate(a, names, start, 0));
      assert RestsAfter(a, names, start, 1);
    } else {
      forall n: nat ensures !RestsAfter(a, names, start, n) {
        var now := RotationNeverStops(a, names, start, values, n);
      }
    }
  }
}
