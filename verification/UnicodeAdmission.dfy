/** `_admit_unicode` of `contracts/canonical.py`: admission of decoded JSON or YAML structures into
    the interoperable domain, with Python strings that may still hold surrogate code points. */
module UnicodeAdmission {
  import opened Json

  type CodePoint = n: int | 0 <= n < 0x11_0000
  type Unit = n: int | 0 <= n < 0x1_0000
  type Text = seq<CodePoint>

  const MAX_STRUCTURE_DEPTH := 128
  const MAX_STRUCTURE_NODES := 100_000

  // ----- UTF-16 (section 2 of RFC 2781) -----

  predicate High(u: int) { 0xD800 <= u < 0xDC00 }
  predicate Low(u: int) { 0xDC00 <= u < 0xE000 }
  predicate Surrogate(c: int) { 0xD800 <= c < 0xE000 }

  function EncodePoint(c: CodePoint): seq<Unit> {
    if c < 0x1_0000 then [c] else [0xD800 + (c - 0x1_0000) / 0x400, 0xDC00 + (c - 0x1_0000) % 0x400]
  }

  /** `encode("utf-16-le", "surrogatepass")`. */
  function Encode(t: Text): seq<Unit> { if t == [] then [] else EncodePoint(t[0]) + Encode(t[1..]) }

  /** `decode("utf-16-le")`. */
  function Decode(us: seq<Unit>): Option<Text> {
    if us == [] then Some([])
    else if High(us[0]) then
      if |us| > 1 && Low(us[1]) then
        match Decode(us[2..]) case Some(t) => Some([0x1_0000 + (us[0] - 0xD800) * 0x400 + (us[1] - 0xDC00)] + t)
          case None => None
      else None
    else if Low(us[0]) then None
    else match Decode(us[1..]) case Some(t) => Some([us[0]] + t) case None => None
  }

  /** Every surrogate unit stands in a high-low pair (section 2.2 of RFC 2781). */
  ghost predicate WellPaired(us: seq<Unit>) {
    && (forall i :: 0 <= i < |us| && High(us[i]) ==> i + 1 < |us| && Low(us[i + 1]))
    && (forall i :: 0 <= i < |us| && Low(us[i]) ==> i > 0 && High(us[i - 1]))
  }

  lemma WellPairedTail(us: seq<Unit>, n: nat)
    requires n <= |us| && ((n == 1 && !Surrogate(us[0])) || (n == 2 && High(us[0]) && Low(us[1])))
    ensures WellPaired(us) <==> WellPaired(us[n..])
  {
    var rest := us[n..];
    assert forall i :: 0 <= i < |rest| ==> rest[i] == us[i + n];
    if WellPaired(rest) {
      forall i | 0 <= i < |us| && High(us[i]) ensures i + 1 < |us| && Low(us[i + 1]) {
        if i >= n { assert High(rest[i - n]); }
      }
      forall i | 0 <= i < |us| && Low(us[i]) ensures i > 0 && High(us[i - 1]) {
        if i >= n { assert Low(rest[i - n]); }
      }
    }
    if WellPaired(us) {
      forall i | 0 <= i < |rest| && High(rest[i]) ensures i + 1 < |rest| && Low(rest[i + 1]) { assert High(us[i + n]); }
      forall i | 0 <= i < |rest| && Low(rest[i]) ensures i > 0 && High(rest[i - 1]) { assert Low(us[i + n]); }
    }
  }

  lemma {:induction false} DecodesIffWellPaired(us: seq<Unit>)
    ensures Decode(us).Some? <==> WellPaired(us)
  {
    if us != [] {
      if High(us[0]) {
        if |us| > 1 && Low(us[1]) {
          WellPairedTail(us, 2);
          DecodesIffWellPaired(us[2..]);
        }
      } else if !Low(us[0]) {
        WellPairedTail(us, 1);
        DecodesIffWellPaired(us[1..]);
      }
    }
  }

  ghost predicate NoSurrogates(t: Text) { forall i :: 0 <= i < |t| ==> !Surrogate(t[i]) }

  lemma {:induction false} DecodedHasNoSurrogates(us: seq<Unit>)
    requires Decode(us).Some?
    ensures NoSurrogates(Decode(us).value) && Encode(Decode(us).value) == us
  {
    if us != [] {
      var n := if High(us[0]) then 2 else 1;
      DecodedHasNoSurrogates(us[n..]);
      var t := Decode(us).value;
      assert t[1..] == Decode(us[n..]).value;
      assert EncodePoint(t[0]) == us[..n];
      assert us == us[..n] + us[n..];
    }
  }

  lemma PointRoundTrips(c: CodePoint, rest: seq<Unit>)
    requires !Surrogate(c)
    ensures var us := EncodePoint(c) + rest;
            Decode(us) == match Decode(rest) case Some(t) => Some([c] + t) case None => None
  {
    var us := EncodePoint(c) + rest;
    assert us[|EncodePoint(c)|..] == rest;
  }

  lemma {:induction false} CleanTextRoundTrips(t: Text)
    requires NoSurrogates(t)
    ensures Decode(Encode(t)) == Some(t)
  {
    if t != [] {
      CleanTextRoundTrips(t[1..]);
      PointRoundTrips(t[0], Encode(t[1..]));
      assert t == [t[0]] + t[1..];
    }
  }

  predicate NonCharacter(c: CodePoint) { 0xFDD0 <= c <= 0xFDEF || c % 0x1_0000 >= 0xFFFE }

  /** The 66 noncharacters: a block of 32, and the last two code points of each of the 17 planes. */
  lemma NonCharacterIff(c: CodePoint)
    ensures NonCharacter(c) <==>
            || 0xFDD0 <= c < 0xFDD0 + 32
            || exists plane :: 0 <= plane < 17 && (c == plane * 0x1_0000 + 0xFFFE || c == plane * 0x1_0000 + 0xFFFF)
  {
    var plane := c / 0x1_0000;
    assert c == plane * 0x1_0000 + c % 0x1_0000 && 0 <= plane < 17;
  }

  predicate HasNonCharacter(t: Text) { exists i :: 0 <= i < |t| && NonCharacter(t[i]) }

  /** What admission makes of a string: surrogate pairs merged, or a refusal. */
  function NormalText(t: Text): Option<Text> {
    match Decode(Encode(t))
    case Some(n) => if HasNonCharacter(n) then None else Some(n)
    case None => None
  }

  lemma NormalTextStable(t: Text)
    requires NormalText(t).Some?
    ensures NoSurrogates(NormalText(t).value) && NormalText(NormalText(t).value) == NormalText(t)
    ensures Encode(NormalText(t).value) == Encode(t)
  {
    DecodedHasNoSurrogates(Encode(t));
    CleanTextRoundTrips(NormalText(t).value);
  }

  // ----- Structures -----

  datatype Key = TextKey(text: Text) | OtherKey
  datatype Member = Member(key: Key, value: Value)
  datatype Value =
    | Scalar
    | TextValue(text: Text)
    | ListValue(items: seq<Value>)
    | ObjectValue(members: seq<Member>)
    | Unsupported

  datatype Fault = Complexity | InvalidUnicode | MalformedSource | DuplicateKey
  datatype Outcome<T> = Ok(value: T) | Err(fault: Fault)

  /** A text whose UTF-16 units are well formed and, once merged, name no noncharacter. */
  ghost predicate GoodText(t: Text) {
    && WellPaired(Encode(t))
    && (Decode(Encode(t)).Some? ==> !HasNonCharacter(Decode(Encode(t)).value))
  }

  predicate SameKey(a: Key, b: Key)
  {
    a.TextKey? && b.TextKey? && NormalText(a.text).Some? && NormalText(a.text) == NormalText(b.text)
  }

  /** The interoperable domain, apart from the two size limits. */
  ghost predicate Clean(v: Value) {
    match v
    case Scalar => true
    case TextValue(t) => GoodText(t)
    case ListValue(items) => forall i :: 0 <= i < |items| ==> Clean(items[i])
    case ObjectValue(ms) =>
      && (forall i :: 0 <= i < |ms| ==> CleanMember(ms[i]))
      && (forall i :: 0 <= i < |ms| ==> !Repeats(ms, i))
    case Unsupported => false
  }

  ghost predicate CleanMember(m: Member)
    decreases m
  {
    m.key.TextKey? && GoodText(m.key.text) && Clean(m.value)
  }

  /** The faults a structure holds anywhere, its nodes including object keys, and its height. */
  datatype Extent = Extent(illFormed: bool, malformed: bool, duplicate: bool, nodes: nat, height: nat) {
    predicate Faultless() { !illFormed && !malformed && !duplicate }
  }

  function Size(nodes: nat, height: nat): Extent { Extent(false, false, false, nodes, height) }

  function Both(a: Extent, b: Extent): Extent {
    Extent(a.illFormed || b.illFormed, a.malformed || b.malformed, a.duplicate || b.duplicate,
           a.nodes + b.nodes, if a.height < b.height then b.height else a.height)
  }

  ghost predicate Within(a: Extent, b: Extent) {
    && (a.illFormed ==> b.illFormed) && (a.malformed ==> b.malformed) && (a.duplicate ==> b.duplicate)
    && a.nodes <= b.nodes && a.height <= b.height
  }

  function TextExtent(t: Text): Extent { Size(1, 0).(illFormed := NormalText(t).None?) }

  function Under(e: Extent): Extent { e.(height := e.height + 1) }

  function Measure(v: Value): (e: Extent)
    ensures e.nodes >= 1
  {
    match v
    case Scalar => Size(1, 0)
    case TextValue(t) => TextExtent(t)
    case ListValue(items) => Both(Size(1, 0), ItemsExtent(items, |items|))
    case ObjectValue(ms) => Both(Size(1, 0), MembersExtent(ms, |ms|))
    case Unsupported => Size(1, 0).(malformed := true)
  }

  /** The first `k` items of a list. */
  function ItemsExtent(items: seq<Value>, k: nat): Extent
    requires k <= |items|
  {
    if k == 0 then Size(0, 0) else Both(ItemsExtent(items, k - 1), Under(Measure(items[k - 1])))
  }

  /** The first `k` members of an object. */
  function MembersExtent(ms: seq<Member>, k: nat): Extent
    requires k <= |ms|
  {
    if k == 0 then Size(0, 0)
    else Both(MembersExtent(ms, k - 1), MemberExtent(Repeats(ms, k - 1), ms[k - 1]))
  }

  /** The key of member `k` merges to the key of an earlier member. */
  predicate Repeats(ms: seq<Member>, k: nat)
    requires k < |ms|
  {
    exists i :: 0 <= i < k && SameKey(ms[i].key, ms[k].key)
  }

  function KeyExtent(repeats: bool, key: Key): Extent {
    match key
    case OtherKey => Size(0, 0).(malformed := true)
    case TextKey(t) => Under(TextExtent(t)).(duplicate := repeats)
  }

  function MemberExtent(repeats: bool, m: Member): Extent
    decreases m
  {
    Both(KeyExtent(repeats, m.key), Under(Measure(m.value)))
  }

  lemma {:induction false} ItemsWithin(items: seq<Value>, k: nat, n: nat)
    requires k <= n <= |items|
    ensures Within(ItemsExtent(items, k), ItemsExtent(items, n))
    decreases n - k
  {
    if k < n { ItemsWithin(items, k + 1, n); }
  }

  lemma {:induction false} MembersWithin(ms: seq<Member>, k: nat, n: nat)
    requires k <= n <= |ms|
    ensures Within(MembersExtent(ms, k), MembersExtent(ms, n))
    decreases n - k
  {
    if k < n { MembersWithin(ms, k + 1, n); }
  }

  ghost predicate FitsAt(e: Extent, depth: nat, nodes: nat) {
    depth + e.height <= MAX_STRUCTURE_DEPTH && nodes + e.nodes <= MAX_STRUCTURE_NODES
  }

  /** What a fault reported for a structure of extent `e` may be: one it holds, or a limit it breaks. */
  ghost predicate Justified(f: Fault, e: Extent, depth: nat, nodes: nat) {
    match f
    case Complexity => !FitsAt(e, depth, nodes)
    case InvalidUnicode => e.illFormed
    case MalformedSource => e.malformed
    case DuplicateKey => e.duplicate
  }

  // ----- The admitted value -----

  function NormalOr(t: Text): Text { match NormalText(t) case Some(n) => n case None => t }

  function NormalKey(k: Key): Key { match k case TextKey(t) => TextKey(NormalOr(t)) case OtherKey => OtherKey }

  function Normal(v: Value): Value
    decreases v
  {
    match v
    case TextValue(t) => TextValue(NormalOr(t))
    case ListValue(items) => ListValue(seq(|items|, i requires 0 <= i < |items| => Normal(items[i])))
    case ObjectValue(ms) =>
      ObjectValue(seq(|ms|, i requires 0 <= i < |ms| => NormalMember(ms[i])))
    case _ => v
  }

  function NormalMember(m: Member): Member
    decreases m
  {
    Member(NormalKey(m.key), Normal(m.value))
  }

  /** `done` holds the normal forms of the first members of `ms`, all with admitted keys. */
  ghost predicate MembersDone(ms: seq<Member>, done: seq<Member>) {
    |done| <= |ms| && forall j :: 0 <= j < |done| ==> TextKeyed(ms[j]) && done[j] == NormalMember(ms[j])
  }

  ghost predicate TextKeyed(m: Member) { m.key.TextKey? && NormalText(m.key.text).Some? }

  // ----- What admission means -----

  lemma GoodTextIff(t: Text)
    ensures GoodText(t) <==> NormalText(t).Some?
  {
    DecodesIffWellPaired(Encode(t));
  }

  /** No fault is found exactly in the structures of the interoperable domain. */
  lemma {:induction false} FaultFreeIffClean(v: Value)
    ensures Measure(v).Faultless() <==> Clean(v)
    decreases v, 1
  {
    match v
    case TextValue(t) => GoodTextIff(t);
    case ListValue(items) => ItemsFaultFree(items, |items|);
    case ObjectValue(ms) => MembersFaultFree(ms);
    case _ =>
  }

  lemma {:induction false} ItemsFaultFree(items: seq<Value>, k: nat)
    requires k <= |items|
    ensures ItemsExtent(items, k).Faultless() <==> forall i :: 0 <= i < k ==> Clean(items[i])
    decreases items, k
  {
    if k > 0 {
      ItemsFaultFree(items, k - 1);
      FaultFreeIffClean(items[k - 1]);
    }
  }

  lemma {:induction false} MemberFaultFree(repeats: bool, m: Member)
    ensures MemberExtent(repeats, m).Faultless() <==> CleanMember(m) && !repeats
    decreases m, 2
  {
    if m.key.TextKey? { GoodTextIff(m.key.text); }
    FaultFreeIffClean(m.value);
  }

  lemma {:induction false} MembersFaultless(ms: seq<Member>, k: nat, i: nat)
    requires i < k <= |ms| && MembersExtent(ms, k).Faultless()
    ensures MemberExtent(Repeats(ms, i), ms[i]).Faultless()
  {
    MembersWithin(ms, i + 1, k);
  }

  lemma {:induction false} MembersFaulty(ms: seq<Member>, k: nat) returns (i: nat)
    requires k <= |ms| && !MembersExtent(ms, k).Faultless()
    ensures i < k && !MemberExtent(Repeats(ms, i), ms[i]).Faultless()
  {
    if MembersExtent(ms, k - 1).Faultless() { i := k - 1; } else { i := MembersFaulty(ms, k - 1); }
  }

  lemma {:induction false} MembersFaultFree(ms: seq<Member>)
    ensures MembersExtent(ms, |ms|).Faultless()
      <==> (forall i :: 0 <= i < |ms| ==> CleanMember(ms[i])) && (forall i :: 0 <= i < |ms| ==> !Repeats(ms, i))
    decreases ms, 0
  {
    if MembersExtent(ms, |ms|).Faultless() {
      forall i | 0 <= i < |ms| ensures CleanMember(ms[i]) && !Repeats(ms, i) {
        MembersFaultless(ms, |ms|, i);
        MemberFaultFree(Repeats(ms, i), ms[i]);
      }
    } else {
      var i := MembersFaulty(ms, |ms|);
      MemberFaultFree(Repeats(ms, i), ms[i]);
    }
  }

  ghost predicate SurrogateFree(v: Value) {
    match v
    case TextValue(t) => NoSurrogates(t)
    case ListValue(items) => forall i :: 0 <= i < |items| ==> SurrogateFree(items[i])
    case ObjectValue(ms) => forall i :: 0 <= i < |ms| ==>
      (ms[i].key.TextKey? ==> NoSurrogates(ms[i].key.text)) && SurrogateFree(ms[i].value)
    case _ => true
  }

  /** Re-admission is the identity: a normal form is fault free, holds no surrogate, has the extent of
      the structure it came from and is its own normal form. */
  lemma {:induction false} NormalFormStable(v: Value)
    requires Measure(v).Faultless()
    ensures SurrogateFree(Normal(v)) && Normal(Normal(v)) == Normal(v) && Measure(Normal(v)) == Measure(v)
    decreases v, 1
  {
    match v
    case TextValue(t) => NormalTextStable(t);
    case ListValue(items) =>
      ItemsStable(items, Normal(v).items, |items|);
      assert Normal(Normal(v)).items == Normal(v).items;
    case ObjectValue(ms) =>
      MembersStable(ms, Normal(v).members);
      assert Normal(Normal(v)).members == Normal(v).members;
    case _ =>
  }

  /** The two structures are alike, text by text the same UTF-16. */
  ghost predicate SameUnits(v: Value, w: Value)
    decreases v
  {
    match v
    case TextValue(t) => w.TextValue? && Encode(w.text) == Encode(t)
    case ListValue(items) =>
      w.ListValue? && |w.items| == |items| && forall i :: 0 <= i < |items| ==> SameUnits(items[i], w.items[i])
    case ObjectValue(ms) =>
      w.ObjectValue? && |w.members| == |ms| && forall i :: 0 <= i < |ms| ==> SameMember(ms[i], w.members[i])
    case _ => w == v
  }

  ghost predicate SameMember(m: Member, n: Member)
    decreases m
  {
    && (m.key.TextKey? ==> n.key.TextKey? && Encode(n.key.text) == Encode(m.key.text))
    && (m.key.OtherKey? ==> n.key.OtherKey?)
    && SameUnits(m.value, n.value)
  }

  lemma NormalOrKeeps(t: Text)
    ensures Encode(NormalOr(t)) == Encode(t)
  {
    if NormalText(t).Some? { NormalTextStable(t); }
  }

  /** Admission rewrites surrogate pairs and nothing else. */
  lemma {:induction false} NormalKeepsUnits(v: Value)
    ensures SameUnits(v, Normal(v))
  {
    match v
    case TextValue(t) => NormalOrKeeps(t);
    case ListValue(items) =>
      forall i | 0 <= i < |items| ensures SameUnits(items[i], Normal(items[i])) { NormalKeepsUnits(items[i]); }
    case ObjectValue(ms) =>
      forall i | 0 <= i < |ms| ensures SameMember(ms[i], NormalMember(ms[i])) {
        if ms[i].key.TextKey? { NormalOrKeeps(ms[i].key.text); }
        NormalKeepsUnits(ms[i].value);
      }
    case _ =>
  }

  lemma {:induction false} ItemsStable(items: seq<Value>, normal: seq<Value>, k: nat)
    requires k <= |items| == |normal| && ItemsExtent(items, k).Faultless()
    requires forall i :: 0 <= i < |items| ==> normal[i] == Normal(items[i])
    ensures ItemsExtent(normal, k) == ItemsExtent(items, k)
    ensures forall i :: 0 <= i < k ==> SurrogateFree(normal[i]) && Normal(normal[i]) == normal[i]
    decreases items, k
  {
    if k > 0 {
      ItemsStable(items, normal, k - 1);
      NormalFormStable(items[k - 1]);
    }
  }

  /** What one admitted member and its normal form share. */
  ghost predicate MemberSettled(m: Member, n: Member) {
    && m.key.TextKey? && n.key.TextKey?
    && NormalText(n.key.text) == NormalText(m.key.text) && NormalText(m.key.text).Some?
    && NoSurrogates(n.key.text) && SurrogateFree(n.value)
    && NormalMember(n) == n
  }

  lemma {:induction false} MemberStable(m: Member)
    requires MemberExtent(false, m).Faultless()
    ensures MemberSettled(m, NormalMember(m))
    ensures MemberExtent(false, NormalMember(m)) == MemberExtent(false, m)
    decreases m, 2
  {
    NormalTextStable(m.key.text);
    NormalFormStable(m.value);
  }

  lemma RepeatsAlike(ms: seq<Member>, normal: seq<Member>, k: nat)
    requires k < |ms| == |normal|
    requires forall i :: 0 <= i <= k ==> MemberSettled(ms[i], normal[i])
    ensures Repeats(ms, k) == Repeats(normal, k)
  {
    assert forall i :: 0 <= i < k ==> SameKey(normal[i].key, normal[k].key) == SameKey(ms[i].key, ms[k].key);
  }

  /** Member `i` of both lists has the same extent. */
  ghost predicate MemberAlike(ms: seq<Member>, normal: seq<Member>, i: nat)
    requires i < |ms| == |normal|
  {
    MemberExtent(Repeats(normal, i), normal[i]) == MemberExtent(Repeats(ms, i), ms[i])
  }

  lemma {:induction false} SameExtent(ms: seq<Member>, normal: seq<Member>, k: nat)
    requires k <= |ms| == |normal| && forall i :: 0 <= i < k ==> MemberAlike(ms, normal, i)
    ensures MembersExtent(normal, k) == MembersExtent(ms, k)
  {
    if k > 0 {
      SameExtent(ms, normal, k - 1);
      assert MemberAlike(ms, normal, k - 1);
    }
  }

  lemma {:induction false} MembersStable(ms: seq<Member>, normal: seq<Member>)
    requires |ms| == |normal| && MembersExtent(ms, |ms|).Faultless()
    requires forall i :: 0 <= i < |ms| ==> normal[i] == NormalMember(ms[i])
    ensures MembersExtent(normal, |ms|) == MembersExtent(ms, |ms|)
    ensures forall i :: 0 <= i < |ms| ==> MemberSettled(ms[i], normal[i])
    decreases ms, 0
  {
    forall i | 0 <= i < |ms|
      ensures !Repeats(ms, i) && MemberSettled(ms[i], normal[i])
      ensures MemberExtent(false, normal[i]) == MemberExtent(false, ms[i])
    {
      MembersFaultless(ms, |ms|, i);
      MemberFaultFree(Repeats(ms, i), ms[i]);
      MemberStable(ms[i]);
    }
    forall i | 0 <= i < |ms| ensures MemberAlike(ms, normal, i) {
      RepeatsAlike(ms, normal, i);
      assert MemberExtent(false, normal[i]) == MemberExtent(false, ms[i]);
    }
    SameExtent(ms, normal, |ms|);
  }

  // ----- steps of the loops -----

  ghost predicate ItemsDone(items: seq<Value>, done: seq<Value>) {
    |done| <= |items| && forall j :: 0 <= j < |done| ==> done[j] == Normal(items[j])
  }

  lemma ItemsStep(items: seq<Value>, i: nat)
    requires i < |items|
    ensures ItemsExtent(items, i + 1) == Both(ItemsExtent(items, i), Under(Measure(items[i])))
    ensures Within(ItemsExtent(items, i + 1), ItemsExtent(items, |items|))
  {
    ItemsWithin(items, i + 1, |items|);
  }

  lemma MembersStep(ms: seq<Member>, i: nat)
    requires i < |ms|
    ensures MembersExtent(ms, i + 1) == Both(MembersExtent(ms, i), MemberExtent(Repeats(ms, i), ms[i]))
    ensures Within(MembersExtent(ms, i + 1), MembersExtent(ms, |ms|))
  {
    MembersWithin(ms, i + 1, |ms|);
  }

  /** What a first part and a child one level down say of both. */
  lemma ChildVerdict(first: Extent, child: Extent, depth: nat, nodes: nat)
    ensures var e := Both(first, Under(child));
            && (e.Faultless() <==> first.Faultless() && child.Faultless())
            && (FitsAt(e, depth, nodes) ==> FitsAt(child, depth + 1, nodes + first.nodes))
            && (FitsAt(first, depth, nodes) && FitsAt(child, depth + 1, nodes + first.nodes) ==>
               FitsAt(e, depth, nodes))
            && (FitsAt(e, depth, nodes) ==> FitsAt(first, depth, nodes))
            && (forall f :: Justified(f, first, depth, nodes) ==> Justified(f, e, depth, nodes))
            && (forall f :: Justified(f, child, depth + 1, nodes + first.nodes) ==> Justified(f, e, depth, nodes))
  {
  }

  /** The part of the items or members admitted so far, and the counter. */
  ghost predicate Fine(e: Extent, depth: nat, start: nat, nodes: nat) {
    e.Faultless() && FitsAt(e, depth, start) && nodes == start + e.nodes
  }

  ghost predicate Acceptable(e: Extent, depth: nat, nodes: nat) { e.Faultless() && FitsAt(e, depth, nodes) }

  /** What the verdict on the next part means for the part after it and for the whole. */
  lemma PartVerdict(done: Extent, next: Extent, after: Extent, whole: Extent, depth: nat, start: nat, nodes: nat)
    requires Fine(done, depth, start, nodes) && after == Both(done, next) && Within(after, whole)
    ensures Acceptable(next, depth, nodes) ==> Fine(after, depth, start, nodes + next.nodes)
    ensures !Acceptable(next, depth, nodes) ==> !Acceptable(whole, depth, start)
    ensures forall f :: Justified(f, next, depth, nodes) ==> Justified(f, whole, depth, start)
  {
  }

  /** A child stands one level down. */
  lemma ChildOf(child: Extent, depth: nat, nodes: nat)
    requires depth <= MAX_STRUCTURE_DEPTH
    ensures Acceptable(Under(child), depth, nodes) <==> Acceptable(child, depth + 1, nodes)
    ensures forall f :: Justified(f, child, depth + 1, nodes) ==> Justified(f, Under(child), depth, nodes)
  {
  }

  lemma MembersDoneGrows(ms: seq<Member>, done: seq<Member>, m: Member)
    requires MembersDone(ms, done) && |done| < |ms| && TextKeyed(ms[|done|]) && m == NormalMember(ms[|done|])
    ensures MembersDone(ms, done + [m])
  {
  }

  lemma ItemsDoneGrows(items: seq<Value>, done: seq<Value>, v: Value)
    requires ItemsDone(items, done) && |done| < |items| && v == Normal(items[|done|])
    ensures ItemsDone(items, done + [v])
  {
  }

  /** Looking for the merged key among the admitted members decides whether it repeats. */
  lemma RepeatsIffFound(ms: seq<Member>, done: seq<Member>, key: Text)
    requires |done| < |ms| && MembersDone(ms, done) && TextKeyed(ms[|done|])
             && NormalText(ms[|done|].key.text) == Some(key)
    ensures Repeats(ms, |done|) <==> exists j :: 0 <= j < |done| && done[j].key == TextKey(key)
  {
    forall j | 0 <= j < |done| ensures SameKey(ms[j].key, ms[|done|].key) <==> done[j].key == TextKey(key) {
      assert TextKeyed(ms[j]) && done[j] == NormalMember(ms[j]);
    }
  }

  /** The shared node counter of one admission. */
  class Budget {
    var nodes: nat

    constructor ()
      ensures nodes == 0
    {
      nodes := 0;
    }

    method AdmitText(t: Text, depth: nat) returns (r: Outcome<Text>)
      modifies this
      ensures r.Ok? <==> NormalText(t).Some? && FitsAt(TextExtent(t), depth, old(nodes))
      ensures r.Ok? ==> NormalText(t) == Some(r.value) && nodes == old(nodes) + 1
      ensures r.Err? ==> Justified(r.fault, TextExtent(t), depth, old(nodes))
    {
      nodes := nodes + 1;
      if depth > MAX_STRUCTURE_DEPTH || nodes > MAX_STRUCTURE_NODES { return Err(Complexity); }
      var merged := Decode(Encode(t));
      if merged.None? || HasNonCharacter(merged.value) { return Err(InvalidUnicode); }
      return Ok(merged.value);
    }

    /** Accepts exactly the fault-free structures within the limits, and gives their normal form. */
    method Admit(v: Value, depth: nat) returns (r: Outcome<Value>)
      modifies this
      ensures r.Ok? <==> Acceptable(Measure(v), depth, old(nodes))
      ensures r.Ok? ==> r.value == Normal(v) && nodes == old(nodes) + Measure(v).nodes
      ensures r.Err? ==> Justified(r.fault, Measure(v), depth, old(nodes))
      decreases v, 1
    {
      if v.TextValue? {
        var text := AdmitText(v.text, depth);
        if text.Err? { return Err(text.fault); }
        return Ok(TextValue(text.value));
      }
      nodes := nodes + 1;
      if depth > MAX_STRUCTURE_DEPTH || nodes > MAX_STRUCTURE_NODES { return Err(Complexity); }
      if v.ObjectValue? {
        var members := AdmitMembers(v.members, depth);
        if members.Err? { return Err(members.fault); }
        assert members.value == Normal(v).members;
        return Ok(ObjectValue(members.value));
      } else if v.ListValue? {
        var items := AdmitItems(v.items, depth);
        if items.Err? { return Err(items.fault); }
        assert items.value == Normal(v).items;
        return Ok(ListValue(items.value));
      } else if v.Scalar? {
        return Ok(v);
      } else {
        return Err(MalformedSource);
      }
    }

    method AdmitItems(items: seq<Value>, depth: nat) returns (r: Outcome<seq<Value>>)
      requires depth <= MAX_STRUCTURE_DEPTH && nodes <= MAX_STRUCTURE_NODES
      modifies this
      ensures r.Ok? <==> Acceptable(ItemsExtent(items, |items|), depth, old(nodes))
      ensures r.Ok? ==> |r.value| == |items| && ItemsDone(items, r.value)
      ensures r.Ok? ==> nodes == old(nodes) + ItemsExtent(items, |items|).nodes
      ensures r.Err? ==> Justified(r.fault, ItemsExtent(items, |items|), depth, old(nodes))
      decreases items, 0
    {
      var done: seq<Value> := [];
      for i := 0 to |items|
        invariant |done| == i && ItemsDone(items, done)
        invariant Fine(ItemsExtent(items, i), depth, old(nodes), nodes)
      {
        ItemsStep(items, i);
        ChildOf(Measure(items[i]), depth, nodes);
        PartVerdict(ItemsExtent(items, i), Under(Measure(items[i])), ItemsExtent(items, i + 1),
                    ItemsExtent(items, |items|), depth, old(nodes), nodes);
        var child := Admit(items[i], depth + 1);
        if child.Err? { return Err(child.fault); }
        ItemsDoneGrows(items, done, child.value);
        done := done + [child.value];
      }
      return Ok(done);
    }

    /** The key of a member, given the members already admitted: its text, or a repetition. */
    method AdmitKey(ms: seq<Member>, done: seq<Member>, m: Member, depth: nat) returns (r: Outcome<Text>)
      requires depth <= MAX_STRUCTURE_DEPTH && nodes <= MAX_STRUCTURE_NODES
      requires |done| < |ms| && m == ms[|done|] && MembersDone(ms, done)
      modifies this
      ensures r.Ok? <==> Acceptable(KeyExtent(Repeats(ms, |done|), m.key), depth, old(nodes))
      ensures r.Ok? ==> TextKeyed(m) && NormalText(m.key.text) == Some(r.value)
      ensures r.Ok? ==> nodes == old(nodes) + 1 && nodes <= MAX_STRUCTURE_NODES
      ensures r.Err? ==> Justified(r.fault, KeyExtent(Repeats(ms, |done|), m.key), depth, old(nodes))
    {
      if m.key.OtherKey? { return Err(MalformedSource); }
      var key := AdmitText(m.key.text, depth + 1);
      if key.Err? { return Err(key.fault); }
      RepeatsIffFound(ms, done, key.value);
      if exists j :: 0 <= j < |done| && done[j].key == TextKey(key.value) { return Err(DuplicateKey); }
      return key;
    }

    /** Member `|done|` of an object. */
    method AdmitMember(ms: seq<Member>, done: seq<Member>, m: Member, depth: nat) returns (r: Outcome<Member>)
      requires depth <= MAX_STRUCTURE_DEPTH && nodes <= MAX_STRUCTURE_NODES
      requires |done| < |ms| && m == ms[|done|] && MembersDone(ms, done)
      modifies this
      ensures r.Ok? <==> Acceptable(MemberExtent(Repeats(ms, |done|), m), depth, old(nodes))
      ensures r.Ok? ==> TextKeyed(m) && r.value == NormalMember(m)
      ensures r.Ok? ==> nodes == old(nodes) + MemberExtent(Repeats(ms, |done|), m).nodes
      ensures r.Err? ==> Justified(r.fault, MemberExtent(Repeats(ms, |done|), m), depth, old(nodes))
      decreases m, 0
    {
      var key := AdmitKey(ms, done, m, depth);
      ghost var keyExtent := KeyExtent(Repeats(ms, |done|), m.key);
      ChildVerdict(keyExtent, Measure(m.value), depth, old(nodes));
      if key.Err? { return Err(key.fault); }
      var child := Admit(m.value, depth + 1);
      if child.Err? { return Err(child.fault); }
      return Ok(Member(TextKey(key.value), child.value));
    }

    method AdmitMembers(ms: seq<Member>, depth: nat) returns (r: Outcome<seq<Member>>)
      requires depth <= MAX_STRUCTURE_DEPTH && nodes <= MAX_STRUCTURE_NODES
      modifies this
      ensures r.Ok? <==> Acceptable(MembersExtent(ms, |ms|), depth, old(nodes))
      ensures r.Ok? ==> |r.value| == |ms| && MembersDone(ms, r.value)
      ensures r.Ok? ==> nodes == old(nodes) + MembersExtent(ms, |ms|).nodes
      ensures r.Err? ==> Justified(r.fault, MembersExtent(ms, |ms|), depth, old(nodes))
      decreases ms, 0
    {
      var done: seq<Member> := [];
      for i := 0 to |ms|
        invariant |done| == i && MembersDone(ms, done)
        invariant Fine(MembersExtent(ms, i), depth, old(nodes), nodes)
      {
        MembersStep(ms, i);
        PartVerdict(MembersExtent(ms, i), MemberExtent(Repeats(ms, i), ms[i]), MembersExtent(ms, i + 1),
                    MembersExtent(ms, |ms|), depth, old(nodes), nodes);
        var member := AdmitMember(ms, done, ms[i], depth);
        if member.Err? { return Err(member.fault); }
        MembersDoneGrows(ms, done, member.value);
        done := done + [member.value];
      }
      return Ok(done);
    }
  }

  /** A whole admission. It accepts exactly the interoperable structures of admitted depth and size, and
      what it returns holds no surrogate and would be admitted again unchanged. */
  method AdmitUnicode(v: Value) returns (r: Outcome<Value>)
    ensures r.Ok? <==> Clean(v) && FitsAt(Measure(v), 0, 0)
    ensures r.Ok? ==> r.value == Normal(v) && SurrogateFree(r.value) && SameUnits(v, r.value)
    ensures r.Ok? ==> Clean(r.value) && FitsAt(Measure(r.value), 0, 0) && Normal(r.value) == r.value
    ensures r.Err? ==> Justified(r.fault, Measure(v), 0, 0)
  {
    var budget := new Budget();
    r := budget.Admit(v, 0);
    FaultFreeIffClean(v);
    if r.Ok? {
      NormalFormStable(v);
      NormalKeepsUnits(v);
      FaultFreeIffClean(Normal(v));
    }
  }
}
