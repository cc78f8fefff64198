/** `_sort_strings` of `architecture/compiler.py`: the recursive normal form of an architecture
    proposal, in which lists of strings and lists of keyed objects are sorted. */
module Normalise {
  import opened Json

  /** Python's `str` on a JSON value, of which nothing is assumed. */
  type Show = Json -> string

  type SortKey = Json -> string

  function TextKey(): SortKey { (v: Json) => if v.Str? then v.s else "" }

  function MemberKey(show: Show, name: string): SortKey {
    (v: Json) => if v.Obj? && name in v.members then show(v.members[name]) else ""
  }

  // ----- the stable sort -----

  function Insert(key: SortKey, x: Json, xs: seq<Json>): seq<Json> {
    if xs == [] || !TextLess(key(xs[0]), key(x)) then [x] + xs else [xs[0]] + Insert(key, x, xs[1..])
  }

  function SortBy(key: SortKey, xs: seq<Json>): seq<Json> {
    if xs == [] then [] else Insert(key, xs[0], SortBy(key, xs[1..]))
  }

  ghost predicate Ordered(key: SortKey, xs: seq<Json>) {
    forall i, j :: 0 <= i < j < |xs| ==> !TextLess(key(xs[j]), key(xs[i]))
  }

  lemma {:induction false} InsertKeeps(key: SortKey, x: Json, xs: seq<Json>)
    ensures multiset(Insert(key, x, xs)) == multiset{x} + multiset(xs)
  {
    if xs != [] && TextLess(key(xs[0]), key(x)) {
      InsertKeeps(key, x, xs[1..]);
      assert xs == [xs[0]] + xs[1..];
    }
  }

  /** Putting an element first that is above none keeps a list ordered. */
  lemma PrependOrdered(key: SortKey, x: Json, xs: seq<Json>)
    requires Ordered(key, xs) && forall j :: 0 <= j < |xs| ==> !TextLess(key(xs[j]), key(x))
    ensures Ordered(key, [x] + xs)
  {
  }

  lemma InsertHere(key: SortKey, x: Json, xs: seq<Json>)
    requires Ordered(key, xs) && (xs == [] || !TextLess(key(xs[0]), key(x)))
    ensures Ordered(key, [x] + xs)
  {
    forall j | 0 <= j < |xs| ensures !TextLess(key(xs[j]), key(x)) {
      if TextLess(key(xs[j]), key(x)) { NotLessTransitive(key(xs[0]), key(xs[j]), key(x)); }
    }
    PrependOrdered(key, x, xs);
  }

  lemma InsertLater(key: SortKey, x: Json, xs: seq<Json>, rest: seq<Json>)
    requires Ordered(key, xs) && xs != [] && TextLess(key(xs[0]), key(x))
    requires Ordered(key, rest) && multiset(rest) == multiset{x} + multiset(xs[1..])
    ensures Ordered(key, [xs[0]] + rest)
  {
    forall j | 0 <= j < |rest| ensures !TextLess(key(rest[j]), key(xs[0])) {
      TextLessTotal(key(xs[0]), key(x));
      assert rest[j] in multiset(rest);
      if rest[j] != x {
        assert rest[j] in xs[1..];
        var i :| 1 <= i < |xs| && xs[i] == rest[j];
      }
    }
    PrependOrdered(key, xs[0], rest);
  }

  lemma {:induction false} InsertSorts(key: SortKey, x: Json, xs: seq<Json>)
    requires Ordered(key, xs)
    ensures Ordered(key, Insert(key, x, xs)) && multiset(Insert(key, x, xs)) == multiset{x} + multiset(xs)
  {
    InsertKeeps(key, x, xs);
    if xs == [] || !TextLess(key(xs[0]), key(x)) {
      InsertHere(key, x, xs);
    } else {
      InsertSorts(key, x, xs[1..]);
      InsertLater(key, x, xs, Insert(key, x, xs[1..]));
    }
  }

  /** If `b` is below `c` then so is anything not above `b`. */
  lemma NotLessTransitive(a: string, b: string, c: string)
    requires !TextLess(b, a) && TextLess(b, c)
    ensures TextLess(a, c)
  {
    TextLessTotal(a, b);
    if a != b { TextLessTransitive(a, b, c); }
  }

  lemma {:induction false} SortBySorts(key: SortKey, xs: seq<Json>)
    ensures Ordered(key, SortBy(key, xs)) && multiset(SortBy(key, xs)) == multiset(xs)
  {
    if xs != [] {
      SortBySorts(key, xs[1..]);
      InsertSorts(key, xs[0], SortBy(key, xs[1..]));
      assert xs == [xs[0]] + xs[1..];
    }
  }

  lemma {:induction false} SortOfOrdered(key: SortKey, xs: seq<Json>)
    requires Ordered(key, xs)
    ensures SortBy(key, xs) == xs
  {
    if xs != [] {
      SortOfOrdered(key, xs[1..]);
      assert xs == [xs[0]] + xs[1..];
    }
  }

  /** Elements of the list are told apart by their keys. */
  ghost predicate KeyedApart(key: SortKey, xs: seq<Json>) {
    forall i, j :: 0 <= i < |xs| && 0 <= j < |xs| && key(xs[i]) == key(xs[j]) ==> xs[i] == xs[j]
  }

  lemma SameHead(key: SortKey, xs: seq<Json>, ys: seq<Json>)
    requires Ordered(key, xs) && Ordered(key, ys) && multiset(xs) == multiset(ys) && KeyedApart(key, xs) && xs != []
    ensures ys != [] && xs[0] == ys[0]
  {
    assert xs[0] in multiset(ys);
    var j :| 0 <= j < |ys| && ys[j] == xs[0];
    assert ys[0] in multiset(xs);
    var i :| 0 <= i < |xs| && xs[i] == ys[0];
    TextLessTotal(key(xs[0]), key(ys[0]));
  }

  lemma TailMultiset(xs: seq<Json>)
    requires xs != []
    ensures multiset(xs[1..]) == multiset(xs) - multiset{xs[0]}
  {
    assert xs == [xs[0]] + xs[1..];
  }

  lemma {:induction false} OrderedUnique(key: SortKey, xs: seq<Json>, ys: seq<Json>)
    requires Ordered(key, xs) && Ordered(key, ys) && multiset(xs) == multiset(ys) && KeyedApart(key, xs)
    ensures xs == ys
  {
    if xs == [] {
      assert |multiset(ys)| == |ys|;
    } else {
      SameHead(key, xs, ys);
      TailMultiset(xs);
      TailMultiset(ys);
      assert multiset(xs[1..]) == multiset(ys[1..]);
      OrderedUnique(key, xs[1..], ys[1..]);
      assert xs == [xs[0]] + xs[1..] && ys == [ys[0]] + ys[1..];
    }
  }

  /** Two lists with the same elements sort alike when keys tell the elements apart. */
  lemma SortIgnoresOrder(key: SortKey, xs: seq<Json>, ys: seq<Json>)
    requires multiset(xs) == multiset(ys) && KeyedApart(key, xs)
    ensures SortBy(key, xs) == SortBy(key, ys)
  {
    SortBySorts(key, xs);
    SortBySorts(key, ys);
    var s := SortBy(key, xs);
    forall i, j | 0 <= i < |s| && 0 <= j < |s| && key(s[i]) == key(s[j]) ensures s[i] == s[j] {
      assert s[i] in multiset(xs) && s[j] in multiset(xs);
    }
    OrderedUnique(key, s, SortBy(key, ys));
  }

  // ----- the normal form -----

  predicate AllStrings(xs: seq<Json>) { forall i :: 0 <= i < |xs| ==> xs[i].Str? }

  predicate AllHave(xs: seq<Json>, name: string) { forall i :: 0 <= i < |xs| ==> xs[i].Obj? && name in xs[i].members }

  /** How a list of normalised, not all string, elements is arranged. */
  function Arrange(show: Show, xs: seq<Json>): seq<Json> {
    if AllHave(xs, "id") then SortBy(MemberKey(show, "id"), xs)
    else if AllHave(xs, "option") then SortBy(MemberKey(show, "option"), xs)
    else xs
  }

  function SortStrings(show: Show, v: Json): Json {
    match v
    case Arr(items) =>
      if AllStrings(items) then Arr(SortBy(TextKey(), items))
      else Arr(Arrange(show, seq(|items|, i requires 0 <= i < |items| => SortStrings(show, items[i]))))
    case Obj(members) => Obj(map k | k in members :: SortStrings(show, members[k]))
    case _ => v
  }

  function Normalised(show: Show, items: seq<Json>): (r: seq<Json>)
    ensures |r| == |items| && forall i :: 0 <= i < |items| ==> r[i] == SortStrings(show, items[i])
  {
    seq(|items|, i requires 0 <= i < |items| => SortStrings(show, items[i]))
  }

  lemma ListForm(show: Show, items: seq<Json>)
    ensures SortStrings(show, Arr(items)) ==
            if AllStrings(items) then Arr(SortBy(TextKey(), items)) else Arr(Arrange(show, Normalised(show, items)))
  {
  }

  /** Normalising keeps the kind of a value and the names of its members. */
  lemma KeepsKind(show: Show, v: Json)
    ensures SortStrings(show, v).Str? == v.Str? && SortStrings(show, v).Obj? == v.Obj?
            && SortStrings(show, v).Arr? == v.Arr?
    ensures v.Obj? ==> SortStrings(show, v).members.Keys == v.members.Keys
    ensures v.Str? ==> SortStrings(show, v) == v
  {
  }

  lemma NormalisedKeepsKind(show: Show, items: seq<Json>, name: string)
    ensures AllStrings(Normalised(show, items)) == AllStrings(items)
    ensures AllHave(Normalised(show, items), name) == AllHave(items, name)
  {
    forall i | 0 <= i < |items|
      ensures Normalised(show, items)[i].Str? == items[i].Str?
      ensures (Normalised(show, items)[i].Obj? && name in Normalised(show, items)[i].members)
              == (items[i].Obj? && name in items[i].members)
    {
      KeepsKind(show, items[i]);
    }
  }

  // ----- what the normal form keeps -----

  /** The elements with this key, in their order. */
  function With(key: SortKey, k: string, xs: seq<Json>): seq<Json> {
    if xs == [] then [] else (if key(xs[0]) == k then [xs[0]] else []) + With(key, k, xs[1..])
  }

  lemma {:induction false} InsertStable(key: SortKey, x: Json, xs: seq<Json>, k: string)
    ensures With(key, k, Insert(key, x, xs)) == With(key, k, [x] + xs)
  {
    assert ([x] + xs)[1..] == xs;
    if xs != [] && TextLess(key(xs[0]), key(x)) {
      var rest := Insert(key, x, xs[1..]);
      InsertStable(key, x, xs[1..], k);
      assert ([x] + xs[1..])[1..] == xs[1..] && ([xs[0]] + rest)[1..] == rest;
      TextLessTotal(key(xs[0]), key(x));
    }
  }

  /** Sorting keeps the order of the elements that share a key. */
  lemma {:induction false} SortByStable(key: SortKey, xs: seq<Json>, k: string)
    ensures With(key, k, SortBy(key, xs)) == With(key, k, xs)
  {
    if xs != [] {
      SortByStable(key, xs[1..], k);
      InsertStable(key, xs[0], SortBy(key, xs[1..]), k);
      var s := SortBy(key, xs[1..]);
      assert ([xs[0]] + s)[1..] == s;
    }
  }

  /** The lists that are arranged: texts, and objects that all have an id or all an option. */
  predicate Sortable(xs: seq<Json>) { AllStrings(xs) || AllHave(xs, "id") || AllHave(xs, "option") }

  /** `w` is `v` with nothing changed but the order of sortable lists, at any depth. */
  ghost predicate Rearranged(v: Json, w: Json)
    decreases v
  {
    match v
    case Arr(items) =>
      w.Arr? && exists mid: seq<Json> ::
        && |mid| == |items| && (forall i :: 0 <= i < |items| ==> Rearranged(items[i], mid[i]))
        && multiset(mid) == multiset(w.items) && (Sortable(items) || mid == w.items)
    case Obj(members) =>
      w.Obj? && w.members.Keys == members.Keys && forall k :: k in members ==> Rearranged(members[k], w.members[k])
    case _ => w == v
  }

  /** Every sortable list inside is sorted: texts by themselves, objects by id or, failing that, by option. */
  ghost predicate InOrder(show: Show, v: Json) {
    match v
    case Arr(items) =>
      && (forall i :: 0 <= i < |items| ==> InOrder(show, items[i]))
      && (AllStrings(items) ==> Ordered(TextKey(), items))
      && (!AllStrings(items) && AllHave(items, "id") ==> Ordered(MemberKey(show, "id"), items))
      && (!AllStrings(items) && !AllHave(items, "id") && AllHave(items, "option") ==>
         Ordered(MemberKey(show, "option"), items))
    case Obj(members) => forall k :: k in members ==> InOrder(show, members[k])
    case _ => true
  }

  /** The normal form loses nothing, moves nothing but elements of sortable lists, and is sorted. */
  lemma {:induction false} NormalFormSound(show: Show, v: Json)
    ensures Rearranged(v, SortStrings(show, v)) && InOrder(show, SortStrings(show, v))
  {
    match v
    case Arr(items) =>
      forall i | 0 <= i < |items|
        ensures Rearranged(items[i], SortStrings(show, items[i])) && InOrder(show, SortStrings(show, items[i])) {
        NormalFormSound(show, items[i]);
      }
      ListRearranged(show, items);
      ListInOrder(show, items);
    case Obj(members) =>
      forall k | k in members
        ensures Rearranged(members[k], SortStrings(show, members[k])) && InOrder(show, SortStrings(show, members[k])) {
        NormalFormSound(show, members[k]);
      }
    case _ =>
  }

  lemma ListRearranged(show: Show, items: seq<Json>)
    requires forall i :: 0 <= i < |items| ==> Rearranged(items[i], SortStrings(show, items[i]))
    ensures Rearranged(Arr(items), SortStrings(show, Arr(items)))
  {
    ListForm(show, items);
    var mid := Normalised(show, items);
    if AllStrings(items) {
      forall i | 0 <= i < |items| ensures mid[i] == items[i] { KeepsKind(show, items[i]); }
      assert mid == items;
      SortBySorts(TextKey(), items);
      ArrangedBy(items, mid, SortBy(TextKey(), items));
    } else {
      NormalisedKeepsKind(show, items, "id");
      NormalisedKeepsKind(show, items, "option");
      ArrangeIsStable(show, mid);
      ArrangedBy(items, mid, Arrange(show, mid));
    }
  }

  lemma ArrangedBy(items: seq<Json>, mid: seq<Json>, after: seq<Json>)
    requires |mid| == |items| && (forall i :: 0 <= i < |items| ==> Rearranged(items[i], mid[i]))
    requires multiset(mid) == multiset(after) && (Sortable(items) || mid == after)
    ensures Rearranged(Arr(items), Arr(after))
  {
  }

  lemma ListInOrder(show: Show, items: seq<Json>)
    requires forall i :: 0 <= i < |items| ==> InOrder(show, SortStrings(show, items[i]))
    ensures InOrder(show, SortStrings(show, Arr(items)))
  {
    ListForm(show, items);
    if AllStrings(items) {
      var s := SortBy(TextKey(), items);
      SortBySorts(TextKey(), items);
      forall i | 0 <= i < |s| ensures s[i].Str? { var j := SameElements(s, items, i); }
    } else {
      var mid := Normalised(show, items);
      var s := Arrange(show, mid);
      NormalisedKeepsKind(show, items, "id");
      ArrangeIsStable(show, mid);
      SameKinds(mid, s, "id");
      SameKinds(mid, s, "option");
      SortBySorts(MemberKey(show, "id"), mid);
      SortBySorts(MemberKey(show, "option"), mid);
      forall i | 0 <= i < |s| ensures InOrder(show, s[i]) { var j := SameElements(s, mid, i); }
    }
  }

  // ----- idempotence -----

  lemma SameElements(xs: seq<Json>, ys: seq<Json>, i: nat) returns (j: nat)
    requires multiset(xs) == multiset(ys) && i < |xs|
    ensures j < |ys| && ys[j] == xs[i]
  {
    assert xs[i] in multiset(ys);
    j :| 0 <= j < |ys| && ys[j] == xs[i];
  }

  lemma SameKinds(xs: seq<Json>, ys: seq<Json>, name: string)
    requires multiset(xs) == multiset(ys)
    ensures AllHave(xs, name) == AllHave(ys, name) && AllStrings(xs) == AllStrings(ys)
  {
    forall i | 0 <= i < |ys| ensures ys[i] in xs { var j := SameElements(ys, xs, i); }
    forall i | 0 <= i < |xs| ensures xs[i] in ys { var j := SameElements(xs, ys, i); }
  }

  /** Arranging a list permutes it, so it stays a list of the same kind, and is arranged already. */
  lemma ArrangeIsStable(show: Show, xs: seq<Json>)
    ensures multiset(Arrange(show, xs)) == multiset(xs) && Arrange(show, Arrange(show, xs)) == Arrange(show, xs)
    ensures AllStrings(Arrange(show, xs)) == AllStrings(xs)
  {
    var ys := Arrange(show, xs);
    SortBySorts(MemberKey(show, "id"), xs);
    SortBySorts(MemberKey(show, "option"), xs);
    SameKinds(xs, ys, "id");
    SameKinds(xs, ys, "option");
    if AllHave(xs, "id") {
      SortOfOrdered(MemberKey(show, "id"), ys);
    } else if AllHave(xs, "option") {
      SortOfOrdered(MemberKey(show, "option"), ys);
    }
  }

  /** Normalising twice is normalising once. */
  lemma {:induction false} Idempotent(show: Show, v: Json)
    ensures SortStrings(show, SortStrings(show, v)) == SortStrings(show, v)
  {
    match v
    case Arr(items) =>
      ListForm(show, items);
      if AllStrings(items) {
        SortedStringsStable(show, items);
      } else {
        forall i | 0 <= i < |items|
          ensures SortStrings(show, Normalised(show, items)[i]) == Normalised(show, items)[i] {
          Idempotent(show, items[i]);
        }
        ArrangedStable(show, Normalised(show, items), items);
      }
    case Obj(members) =>
      var m := map k | k in members :: SortStrings(show, members[k]);
      forall k | k in members ensures SortStrings(show, m[k]) == m[k] { Idempotent(show, members[k]); }
      assert (map k | k in m :: SortStrings(show, m[k])) == m;
    case _ =>
  }

  lemma SortedStringsStable(show: Show, items: seq<Json>)
    requires AllStrings(items)
    ensures SortStrings(show, Arr(SortBy(TextKey(), items))) == Arr(SortBy(TextKey(), items))
  {
    var s := SortBy(TextKey(), items);
    SortBySorts(TextKey(), items);
    forall i | 0 <= i < |s| ensures s[i].Str? { var j := SameElements(s, items, i); }
    SortOfOrdered(TextKey(), s);
  }

  lemma ArrangedStable(show: Show, xs: seq<Json>, items: seq<Json>)
    requires xs == Normalised(show, items) && !AllStrings(items)
    requires forall i :: 0 <= i < |xs| ==> SortStrings(show, xs[i]) == xs[i]
    ensures SortStrings(show, Arr(Arrange(show, xs))) == Arr(Arrange(show, xs))
  {
    var ys := Arrange(show, xs);
    ArrangeIsStable(show, xs);
    NormalisedKeepsKind(show, items, "id");
    forall i | 0 <= i < |ys| ensures SortStrings(show, ys[i]) == ys[i] { var j := SameElements(ys, xs, i); }
    assert Normalised(show, ys) == ys;
    ListForm(show, ys);
  }

  // ----- reorderings -----

  /** The normalised elements of a keyed list have distinct keys. */
  ghost predicate DistinctKeys(show: Show, items: seq<Json>) {
    var xs := Normalised(show, items);
    || (AllHave(items, "id") && KeyedApart(MemberKey(show, "id"), xs))
    || (!AllHave(items, "id") && AllHave(items, "option") && KeyedApart(MemberKey(show, "option"), xs))
  }

  /** The two values differ only by nested reordering of string lists and of keyed object lists with
      distinct keys: an intermediate list carries the permutation, its elements the nested changes. */
  ghost predicate Reordered(show: Show, v: Json, w: Json)
    decreases v
  {
    match v
    case Arr(items) =>
      w.Arr? && exists mid: seq<Json> ::
        && |mid| == |items| && (forall i :: 0 <= i < |items| ==> Reordered(show, items[i], mid[i]))
        && (mid == w.items || (multiset(mid) == multiset(w.items) && (AllStrings(items) || DistinctKeys(show, items))))
    case Obj(members) =>
      w.Obj? && w.members.Keys == members.Keys && forall k :: k in members ==> Reordered(show, members[k], w.members[k])
    case _ => w == v
  }

  function Without(xs: seq<Json>, j: nat): (r: seq<Json>)
    requires j < |xs|
    ensures |r| == |xs| - 1
  {
    xs[..j] + xs[j + 1..]
  }

  lemma WithoutMultiset(ys: seq<Json>, j: nat)
    requires j < |ys|
    ensures multiset(Without(ys, j)) == multiset(ys) - multiset{ys[j]}
  {
    assert ys == ys[..j] + [ys[j]] + ys[j + 1..];
  }

  lemma NormalisedWithout(show: Show, ys: seq<Json>, j: nat)
    requires j < |ys|
    ensures multiset(Normalised(show, Without(ys, j)))
            == multiset(Normalised(show, ys)) - multiset{SortStrings(show, ys[j])}
  {
    assert Normalised(show, Without(ys, j)) == Without(Normalised(show, ys), j);
    WithoutMultiset(Normalised(show, ys), j);
  }

  lemma {:induction false} NormalisedMultiset(show: Show, xs: seq<Json>, ys: seq<Json>)
    requires multiset(xs) == multiset(ys)
    ensures multiset(Normalised(show, xs)) == multiset(Normalised(show, ys))
    decreases |xs|
  {
    if xs == [] {
      assert |multiset(ys)| == |ys|;
    } else {
      var j := SameElements(xs, ys, 0);
      WithoutMultiset(xs, 0);
      WithoutMultiset(ys, j);
      NormalisedMultiset(show, Without(xs, 0), Without(ys, j));
      NormalisedWithout(show, xs, 0);
      NormalisedWithout(show, ys, j);
      BackTogether(Normalised(show, xs), 0, Normalised(show, ys), j);
    }
  }

  lemma BackTogether(xs: seq<Json>, i: nat, ys: seq<Json>, j: nat)
    requires i < |xs| && j < |ys| && xs[i] == ys[j] && multiset(xs) - multiset{xs[i]} == multiset(ys) - multiset{ys[j]}
    ensures multiset(xs) == multiset(ys)
  {
    assert xs[i] in multiset(xs) && ys[j] in multiset(ys);
    assert multiset(xs) == (multiset(xs) - multiset{xs[i]}) + multiset{xs[i]};
    assert multiset(ys) == (multiset(ys) - multiset{ys[j]}) + multiset{ys[j]};
  }

  lemma PermutedLists(show: Show, items: seq<Json>, mid: seq<Json>, other: seq<Json>)
    requires Normalised(show, items) == Normalised(show, mid) && multiset(mid) == multiset(other)
    requires (AllStrings(items) && items == mid) || (!AllStrings(items) && DistinctKeys(show, items))
    ensures SortStrings(show, Arr(items)) == SortStrings(show, Arr(other))
  {
    ListForm(show, items);
    ListForm(show, other);
    SameKinds(mid, other, "id");
    SameKinds(mid, other, "option");
    if AllStrings(items) {
      SortIgnoresOrder(TextKey(), items, other);
    } else {
      NormalisedKeepsKind(show, items, "id");
      NormalisedKeepsKind(show, mid, "id");
      NormalisedKeepsKind(show, other, "id");
      NormalisedKeepsKind(show, items, "option");
      NormalisedKeepsKind(show, other, "option");
      NormalisedMultiset(show, mid, other);
      var key := if AllHave(items, "id") then MemberKey(show, "id") else MemberKey(show, "option");
      SortIgnoresOrder(key, Normalised(show, items), Normalised(show, other));
      SameKinds(Normalised(show, items), Normalised(show, other), "id");
      SameKinds(Normalised(show, items), Normalised(show, other), "option");
    }
  }

  lemma ListsSameForm(show: Show, items: seq<Json>, mid: seq<Json>, other: seq<Json>)
    requires |mid| == |items| && forall i :: 0 <= i < |items| ==>
             SortStrings(show, items[i]) == SortStrings(show, mid[i])
    requires mid == other || (multiset(mid) == multiset(other) && (AllStrings(items) || DistinctKeys(show, items)))
    ensures SortStrings(show, Arr(items)) == SortStrings(show, Arr(other))
  {
    assert Normalised(show, items) == Normalised(show, mid);
    NormalisedKeepsKind(show, items, "id");
    NormalisedKeepsKind(show, mid, "id");
    if AllStrings(items) {
      forall i | 0 <= i < |items| ensures items[i] == mid[i] {
        KeepsKind(show, items[i]);
        KeepsKind(show, mid[i]);
      }
      assert items == mid;
    }
    if mid == other {
      ListForm(show, items);
      ListForm(show, mid);
    } else {
      PermutedLists(show, items, mid, other);
    }
  }

  lemma ObjectsSameForm(show: Show, m: map<string, Json>, n: map<string, Json>)
    requires m.Keys == n.Keys && forall k :: k in m ==> SortStrings(show, m[k]) == SortStrings(show, n[k])
    ensures SortStrings(show, Obj(m)) == SortStrings(show, Obj(n))
  {
    assert (map k | k in m :: SortStrings(show, m[k])) == (map k | k in n :: SortStrings(show, n[k]));
  }

  lemma {:induction false} ReorderedAlike(show: Show, v: Json, w: Json)
    requires Reordered(show, v, w)
    ensures SortStrings(show, v) == SortStrings(show, w)
    decreases v
  {
    match v
    case Arr(items) =>
      var mid: seq<Json> :|
        && |mid| == |items| && (forall i :: 0 <= i < |items| ==> Reordered(show, items[i], mid[i]))
        && (mid == w.items || (multiset(mid) == multiset(w.items) && (AllStrings(items) || DistinctKeys(show, items))));
      forall i | 0 <= i < |items| ensures SortStrings(show, items[i]) == SortStrings(show, mid[i]) {
        ReorderedAlike(show, items[i], mid[i]);
      }
      ListsSameForm(show, items, mid, w.items);
    case Obj(members) =>
      forall k | k in members ensures SortStrings(show, members[k]) == SortStrings(show, w.members[k]) {
        ReorderedAlike(show, members[k], w.members[k]);
      }
      ObjectsSameForm(show, members, w.members);
    case _ =>
  }

  /** The condition on keys is needed: two elements with equal keys keep the order they came in. */
  lemma EqualKeysKeepOrder(show: Show, a: Json, b: Json)
    requires a.Obj? && b.Obj? && "id" in a.members && "id" in b.members
    requires MemberKey(show, "id")(SortStrings(show, a)) == MemberKey(show, "id")(SortStrings(show, b))
    requires SortStrings(show, a) != SortStrings(show, b)
    ensures SortStrings(show, Arr([a, b])) != SortStrings(show, Arr([b, a]))
  {
    EqualKeysSorted(show, a, b);
    EqualKeysSorted(show, b, a);
  }

  lemma EqualKeysSorted(show: Show, a: Json, b: Json)
    requires a.Obj? && b.Obj? && "id" in a.members && "id" in b.members
    requires MemberKey(show, "id")(SortStrings(show, a)) == MemberKey(show, "id")(SortStrings(show, b))
    ensures SortStrings(show, Arr([a, b])) == Arr([SortStrings(show, a), SortStrings(show, b)])
  {
    ListForm(show, [a, b]);
    assert ![a, b][0].Str?;
    NormalisedKeepsKind(show, [a, b], "id");
    var xs := Normalised(show, [a, b]);
    assert xs == [SortStrings(show, a), SortStrings(show, b)];
    TextLessTotal(MemberKey(show, "id")(xs[0]), MemberKey(show, "id")(xs[1]));
    SortOfOrdered(MemberKey(show, "id"), xs);
  }

  /** `compile`, seen from the proposal: input checks on the proposal as submitted, and then a pack,
      or none, made from the normal form alone. */
  function Compile(show: Show, inputsOk: Json -> bool, finish: Json -> Option<Json>, proposal: Json): Option<Json> {
    if inputsOk(proposal) then finish(SortStrings(show, proposal)) else None
  }

  /** Reorderings have the same normal form, and any packs compiled from them are equal, digest included. */
  lemma ReorderedSameForm(show: Show, inputsOk: Json -> bool, finish: Json -> Option<Json>, v: Json, w: Json)
    requires Reordered(show, v, w)
    ensures SortStrings(show, v) == SortStrings(show, w)
    ensures Compile(show, inputsOk, finish, v).Some? && Compile(show, inputsOk, finish, w).Some? ==>
              Compile(show, inputsOk, finish, v) == Compile(show, inputsOk, finish, w)
  {
    ReorderedAlike(show, v, w);
  }
}
