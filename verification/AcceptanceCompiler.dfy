/** `_assertions` of `contracts/acceptance.py`: admit the items of an assertion list, then refuse
    the list when its assertions cannot hold together. */
module AcceptanceCompiler {
  import opened Json
  import opened Acceptance

  // ----- ancestors and descendants -----

  predicate IsDescendant(ancestor: Assertion, d: Assertion) { ancestor.path + "." <= d.path }

  function Suffix(ancestor: Assertion, d: Assertion): string
    requires IsDescendant(ancestor, d)
  {
    d.path[|ancestor.path| + 1..]
  }

  /** A descendant's path goes on where the ancestor's ends. */
  lemma DescendantIff(ancestor: Assertion, d: Assertion)
    ensures IsDescendant(ancestor, d) <==>
            |Split(ancestor.path, '.')| < |Split(d.path, '.')| && Split(ancestor.path, '.') <= Split(d.path, '.')
    ensures IsDescendant(ancestor, d) ==>
              Split(d.path, '.') == Split(ancestor.path, '.') + Split(Suffix(ancestor, d), '.')
  {
    var above, below := Split(ancestor.path, '.'), Split(d.path, '.');
    if IsDescendant(ancestor, d) {
      assert d.path == ancestor.path + "." + Suffix(ancestor, d);
      SplitJoin(ancestor.path, Suffix(ancestor, d), '.');
    }
    if |above| < |below| && above <= below {
      assert below == above + below[|above|..];
      JoinOfSplit(ancestor.path, '.');
      JoinOfSplit(d.path, '.');
      JoinLonger(above, below[|above|..], '.');
    }
  }

  predicate AncestorContradicts(search: Search, ancestor: Assertion, d: Assertion)
    requires WellFormed(ancestor) && WellFormed(d) && IsDescendant(ancestor, d)
  {
    var parts := Split(Suffix(ancestor, d), '.');
    || MappingDomain !in AssertionDomains(ancestor)
    || (ancestor.op.NOT_CONTAINS? && ancestor.value == Str(parts[0]))
    || (ancestor.op.EQ? && ancestor.value.Obj?
        && match Walk(ancestor.value, parts)
           case None => true
           case Some(current) => !LiteralSatisfies(search, d, current))
  }

  lemma {:induction false} WalkComposes(value: Json, p: seq<string>, q: seq<string>)
    ensures Walk(value, p + q) == match Walk(value, p) case None => None case Some(w) => Walk(w, q)
  {
    if p == [] {
      assert p + q == q;
    } else if value.Obj? && p[0] in value.members {
      WalkComposes(value.members[p[0]], p[1..], q);
      assert (p + q)[1..] == p[1..] + q;
    }
  }

  lemma AncestorSound(search: Search, ancestor: Assertion, d: Assertion, document: Json)
    requires WellFormed(ancestor) && WellFormed(d) && IsDescendant(ancestor, d)
    requires Passes(search, ancestor, document) && Passes(search, d, document)
    ensures !AncestorContradicts(search, ancestor, d)
  {
    var parts := Split(Suffix(ancestor, d), '.');
    assert d.path == ancestor.path + "." + Suffix(ancestor, d);
    SplitJoin(ancestor.path, Suffix(ancestor, d), '.');
    WalkComposes(document, Split(ancestor.path, '.'), parts);
    EvaluatorsAgree(search, ancestor, document);
    EvaluatorsAgree(search, d, document);
    DomainSound(search, ancestor, At(document, ancestor.path).value);
  }

  // ----- the whole list -----

  function AtPath(s: seq<Assertion>, path: string): (r: seq<Assertion>)
    ensures forall a :: a in r <==> a in s && a.path == path
  {
    if s == [] then []
    else (if s[0].path == path then [s[0]] else []) + AtPath(s[1..], path)
  }

  ghost predicate PathClash(search: Search, s: seq<Assertion>, path: string)
    requires AllWellFormed(s)
  {
    SetContradictory(search, AtPath(s, path))
  }

  /** The path of one of the first `n` assertions carries a clash. */
  ghost predicate ClashAmong(search: Search, s: seq<Assertion>, n: nat)
    requires AllWellFormed(s) && n <= |s|
  {
    n > 0 && (PathClash(search, s, s[n - 1].path) || ClashAmong(search, s, n - 1))
  }

  lemma {:induction false} ClashingPath(search: Search, s: seq<Assertion>, n: nat) returns (k: nat)
    requires AllWellFormed(s) && n <= |s| && ClashAmong(search, s, n)
    ensures k < n && PathClash(search, s, s[k].path)
  {
    if PathClash(search, s, s[n - 1].path) { k := n - 1; } else { k := ClashingPath(search, s, n - 1); }
  }

  predicate AncestorClash(search: Search, s: seq<Assertion>, ancestor: Assertion)
    requires AllWellFormed(s) && WellFormed(ancestor)
  {
    exists d :: d in s && IsDescendant(ancestor, d) && AncestorContradicts(search, ancestor, d)
  }

  /** The list is refused with CONTRADICTORY_ASSERTIONS. */
  ghost predicate Flagged(search: Search, s: seq<Assertion>)
    requires AllWellFormed(s)
  {
    || ClashAmong(search, s, |s|)
    || (exists a :: a in s && AncestorClash(search, s, a))
  }

  /** Soundness of refusal: whatever the compiler refuses, no JSON document can ever satisfy. */
  lemma RefusalIsSound(search: Search, s: seq<Assertion>)
    requires AllWellFormed(s) && Flagged(search, s)
    ensures !Satisfiable(search, s)
  {
    forall document | AllPass(search, s, document) ensures false {
      if ClashAmong(search, s, |s|) {
        var k := ClashingPath(search, s, |s|);
        var a := s[k];
        EvaluatorsAgree(search, a, document);
        var v := At(document, a.path).value;
        forall b | b in AtPath(s, a.path) ensures LiteralSatisfies(search, b, v) {
          EvaluatorsAgree(search, b, document);
        }
        SetSound(search, AtPath(s, a.path), v);
      } else {
        var a :| a in s && AncestorClash(search, s, a);
        var d :| d in s && IsDescendant(a, d) && AncestorContradicts(search, a, d);
        AncestorSound(search, a, d, document);
      }
    }
  }

  // ----- the loops -----

  method CheckPairs(search: Search, s: seq<Assertion>) returns (clash: bool)
    requires AllWellFormed(s)
    ensures clash <==> exists i, j :: 0 <= i < j < |s| && Contradictory(search, s[i], s[j])
  {
    for i := 0 to |s|
      invariant forall k, j :: 0 <= k < i && k < j < |s| ==> !Contradictory(search, s[k], s[j])
    {
      for j := i + 1 to |s|
        invariant forall m :: i < m < j ==> !Contradictory(search, s[i], s[m])
      {
        if Contradictory(search, s[i], s[j]) { return true; }
      }
    }
    clash := false;
  }

  /** The `exact_values` list. */
  method ForcedValues(s: seq<Assertion>) returns (exact: seq<Json>)
    ensures forall v :: v in exact <==> Forced(s, v)
  {
    exact := [];
    for i := 0 to |s|
      invariant forall v :: v in exact ==> Forced(s, v)
      invariant forall k :: 0 <= k < i && s[k].op.EQ? ==> s[k].value in exact
      invariant forall k :: 0 <= k < i && Pin(s[k].op).Some? ==> Pin(s[k].op).value in exact
      invariant forall k, j :: 0 <= k < i && 0 <= j < |s| && s[k].op.GTE? && s[j].op.LTE? && s[k].value == s[j].value
                               ==> s[k].value in exact
    {
      if s[i].op.EQ? { exact := exact + [s[i].value]; }
      if Pin(s[i].op).Some? { exact := exact + [Pin(s[i].op).value]; }
      if s[i].op.GTE? && exists ceiling :: ceiling in s && ceiling.op.LTE? && ceiling.value == s[i].value {
        exact := exact + [s[i].value];
      }
    }
  }

  /** `_assertion_set_contradictory` as it runs: pairs, then the list of forced values. */
  method CheckSet(search: Search, s: seq<Assertion>) returns (clash: bool)
    requires AllWellFormed(s)
    ensures clash <==> SetContradictory(search, s)
  {
    clash := CheckPairs(search, s);
    if !clash {
      var exact := ForcedValues(s);
      clash := exists v :: v in exact && !AllSatisfied(search, s, v);
    }
  }

  datatype Diagnostic =
    | InvalidAssertionList
    | InvalidAssertionPath
    | UnknownAssertionOperator
    | MissingAssertionValue
    | InvalidRegexAssertion
    | InvalidOrderedAssertionValue
    | ContradictoryAssertions

  function ParseOperator(name: string): Option<Operator> {
    if name == "eq" then Some(EQ)
    else if name == "ne" then Some(NE)
    else if name == "lt" then Some(LT)
    else if name == "lte" then Some(LTE)
    else if name == "gt" then Some(GT)
    else if name == "gte" then Some(GTE)
    else if name == "contains" then Some(CONTAINS)
    else if name == "not_contains" then Some(NOT_CONTAINS)
    else if name == "matches" then Some(MATCHES)
    else if name == "is_true" then Some(IS_TRUE)
    else if name == "is_false" then Some(IS_FALSE)
    else if name == "is_null" then Some(IS_NULL)
    else if name == "not_null" then Some(NOT_NULL)
    else None
  }

  /** The name of an operator in a contract. */
  function OperatorName(op: Operator): string {
    match op
    case EQ => "eq"
    case NE => "ne"
    case LT => "lt"
    case LTE => "lte"
    case GT => "gt"
    case GTE => "gte"
    case CONTAINS => "contains"
    case NOT_CONTAINS => "not_contains"
    case MATCHES => "matches"
    case IS_TRUE => "is_true"
    case IS_FALSE => "is_false"
    case IS_NULL => "is_null"
    case NOT_NULL => "not_null"
  }

  /** Each operator is read from its own name and from no other text. */
  lemma NamesParse(name: string, op: Operator)
    ensures ParseOperator(OperatorName(op)) == Some(op)
    ensures ParseOperator(name) == Some(op) ==> name == OperatorName(op)
  {
  }

  datatype Item = Admitted(a: Assertion) | Refused(d: Diagnostic)

  function TextField(raw: Json, name: string): string {
    if raw.Obj? && name in raw.members && raw.members[name].Str? then raw.members[name].s else ""
  }

  /** One raw list item. `compiles` is `re.compile` succeeding on a pattern. */
  function ReadItem(compiles: string -> bool, raw: Json): (item: Item)
    ensures item.Admitted? ==> WellFormed(item.a)
    ensures item.Refused? ==> !item.d.InvalidAssertionList? && !item.d.ContradictoryAssertions?
  {
    if TextField(raw, "path") == "" then Refused(InvalidAssertionPath)
    else
      var value := if "value" in raw.members then raw.members["value"] else Null;
      match ParseOperator(TextField(raw, "operator"))
      case None => Refused(UnknownAssertionOperator)
      case Some(op) =>
        if !IsUnary(op) && "value" !in raw.members then Refused(MissingAssertionValue)
        else if op.MATCHES? && (!value.Str? || !compiles(value.s)) then Refused(InvalidRegexAssertion)
        else if IsOrdered(op) && !value.Num? && !value.Str? then Refused(InvalidOrderedAssertionValue)
        else Admitted(Assertion(raw.members["path"].s, op, value))
  }

  /** The raw item that writes an assertion down. */
  function Written(a: Assertion): Json {
    Obj(map["path" := Str(a.path), "operator" := Str(OperatorName(a.op)), "value" := a.value])
  }

  /** An assertion written down is read back exactly when it is well formed, its pattern compiling. */
  lemma ReadsBack(compiles: string -> bool, a: Assertion)
    ensures ReadItem(compiles, Written(a)) == Admitted(a)
            <==> WellFormed(a) && (a.op.MATCHES? ==> a.value.Str? && compiles(a.value.s))
  {
    NamesParse("", a.op);
    assert "path" in Written(a).members && "operator" in Written(a).members && "value" in Written(a).members;
    assert TextField(Written(a), "path") == a.path && TextField(Written(a), "operator") == OperatorName(a.op);
  }

  /** What an admitted item says, read off the raw object. */
  lemma AdmittedSays(compiles: string -> bool, raw: Json)
    requires ReadItem(compiles, raw).Admitted?
    ensures var a := ReadItem(compiles, raw).a;
            && raw.Obj? && TextField(raw, "path") == a.path && TextField(raw, "operator") == OperatorName(a.op)
            && ("value" in raw.members ==> a.value == raw.members["value"])
            && ("value" !in raw.members ==> a.value == Null && IsUnary(a.op))
            && (a.op.MATCHES? ==> compiles(a.value.s))
  {
    NamesParse(TextField(raw, "operator"), ReadItem(compiles, raw).a.op);
  }

  /** Each refusal of an item is for the reason its diagnostic names. */
  lemma RefusalSays(compiles: string -> bool, raw: Json)
    requires ReadItem(compiles, raw).Refused?
    ensures match ReadItem(compiles, raw).d
            case InvalidAssertionPath => TextField(raw, "path") == ""
            case UnknownAssertionOperator => forall op :: TextField(raw, "operator") != OperatorName(op)
            case MissingAssertionValue => raw.Obj? && "value" !in raw.members
            case InvalidRegexAssertion =>
              TextField(raw, "operator") == OperatorName(MATCHES)
              && raw.Obj? && "value" in raw.members
              && !(raw.members["value"].Str? && compiles(raw.members["value"].s))
            case InvalidOrderedAssertionValue =>
              (exists op :: IsOrdered(op) && TextField(raw, "operator") == OperatorName(op))
              && raw.Obj? && "value" in raw.members && !raw.members["value"].Num? && !raw.members["value"].Str?
            case _ => false
  {
    var name := TextField(raw, "operator");
    forall op ensures ParseOperator(OperatorName(op)) == Some(op) { NamesParse(name, op); }
    match ParseOperator(name) {
      case Some(op) => NamesParse(name, op);
      case None =>
    }
  }

  /** What reading an item gives: a well-formed assertion or an item diagnostic. */
  predicate ItemOk(item: Item) {
    match item
    case Admitted(a) => WellFormed(a)
    case Refused(d) => !d.InvalidAssertionList? && !d.ContradictoryAssertions?
  }

  type SoundItem = item: Item | ItemOk(item) witness Refused(InvalidAssertionPath)

  type Reader = Json -> SoundItem

  function ItemReader(compiles: string -> bool): Reader { (raw: Json) => ReadItem(compiles, raw) }

  function AdmittedItems(read: Reader, raw: seq<Json>): (s: seq<Assertion>)
    ensures AllWellFormed(s)
  {
    if raw == [] then []
    else
      var rest := AdmittedItems(read, raw[..|raw| - 1]);
      match read(raw[|raw| - 1])
      case Admitted(a) => rest + [a]
      case Refused(_) => rest
  }

  function Refusals(read: Reader, raw: seq<Json>): (ds: seq<Diagnostic>)
    ensures ContradictoryAssertions !in ds && InvalidAssertionList !in ds
  {
    if raw == [] then []
    else
      var rest := Refusals(read, raw[..|raw| - 1]);
      match read(raw[|raw| - 1])
      case Admitted(_) => rest
      case Refused(d) => rest + [d]
  }

  /** Every item is either compiled or leaves a diagnostic; with none left, the compiled list is the
      raw list, item for item. */
  lemma {:induction false} ItemsAccountedFor(read: Reader, raw: seq<Json>)
    ensures |AdmittedItems(read, raw)| + |Refusals(read, raw)| == |raw|
    ensures Refusals(read, raw) == [] <==> forall i :: 0 <= i < |raw| ==> read(raw[i]).Admitted?
    ensures Refusals(read, raw) == [] ==>
              forall i :: 0 <= i < |raw| ==> read(raw[i]) == Admitted(AdmittedItems(read, raw)[i])
  {
    if raw != [] {
      var prefix := raw[..|raw| - 1];
      ItemsAccountedFor(read, prefix);
      assert raw == prefix + [raw[|prefix|]];
    }
  }

  /** Items are read one by one and in order. */
  lemma {:induction false} ReadInOrder(read: Reader, raw: seq<Json>, more: seq<Json>)
    ensures AdmittedItems(read, raw + more) == AdmittedItems(read, raw) + AdmittedItems(read, more)
    ensures Refusals(read, raw + more) == Refusals(read, raw) + Refusals(read, more)
  {
    if more == [] {
      assert raw + more == raw;
    } else {
      var front, last := more[..|more| - 1], more[|more| - 1];
      ReadInOrder(read, raw, front);
      assert (raw + more)[..|raw + more| - 1] == raw + front && (raw + more)[|raw + more| - 1] == last;
    }
  }

  /** The item loop. */
  method ReadItems(read: Reader, raw: seq<Json>) returns (compiled: seq<Assertion>, diagnostics: seq<Diagnostic>)
    ensures compiled == AdmittedItems(read, raw) && diagnostics == Refusals(read, raw)
  {
    compiled, diagnostics := [], [];
    for i := 0 to |raw|
      invariant compiled == AdmittedItems(read, raw[..i]) && diagnostics == Refusals(read, raw[..i])
    {
      assert raw[..i + 1][..i] == raw[..i];
      match read(raw[i])
      case Admitted(a) => compiled := compiled + [a];
      case Refused(d) => diagnostics := diagnostics + [d];
    }
    assert raw[..|raw|] == raw;
  }

  method CheckPath(search: Search, s: seq<Assertion>, path: string) returns (clash: bool)
    requires AllWellFormed(s)
    ensures clash <==> PathClash(search, s, path)
  {
    clash := CheckSet(search, AtPath(s, path));
  }

  method CheckPaths(search: Search, s: seq<Assertion>) returns (clash: bool)
    requires AllWellFormed(s)
    ensures clash <==> ClashAmong(search, s, |s|)
  {
    clash := false;
    for i := 0 to |s|
      invariant clash == ClashAmong(search, s, i)
    {
      var here := CheckPath(search, s, s[i].path);
      clash := clash || here;
    }
  }

  method CheckAncestors(search: Search, s: seq<Assertion>) returns (clash: bool)
    requires AllWellFormed(s)
    ensures clash <==> exists a :: a in s && AncestorClash(search, s, a)
  {
    for i := 0 to |s|
      invariant forall k :: 0 <= k < i ==> !AncestorClash(search, s, s[k])
    {
      if AncestorClash(search, s, s[i]) { return true; }
    }
    clash := false;
  }

  /** `_assertions`. A list that raises no diagnostic is compiled whole, item for item, and is not
      contradictory; a list refused as contradictory is one no document satisfies. */
  method CompileAssertions(compiles: string -> bool, search: Search, raw: Json)
    returns (compiled: seq<Assertion>, diagnostics: seq<Diagnostic>)
    ensures AllWellFormed(compiled)
    ensures compiled == if raw.Arr? then AdmittedItems(ItemReader(compiles), raw.items) else []
    ensures diagnostics == [] <==>
              && raw.Arr? && raw.items != []
              && (forall i :: 0 <= i < |raw.items| ==> ReadItem(compiles, raw.items[i]).Admitted?)
              && !Flagged(search, compiled)
    ensures diagnostics == [] ==>
              && |compiled| == |raw.items|
              && forall i :: 0 <= i < |compiled| ==> ReadItem(compiles, raw.items[i]) == Admitted(compiled[i])
    ensures ContradictoryAssertions in diagnostics <==> raw.Arr? && raw.items != [] && Flagged(search, compiled)
    ensures ContradictoryAssertions in diagnostics ==> !Satisfiable(search, compiled)
    ensures InvalidAssertionList in diagnostics <==> !raw.Arr? || raw.items == []
  {
    if !raw.Arr? || raw.items == [] {
      return [], [InvalidAssertionList];
    }
    compiled, diagnostics := ReadItems(ItemReader(compiles), raw.items);
    ItemsAccountedFor(ItemReader(compiles), raw.items);
    var clash := CheckPaths(search, compiled);
    if !clash { clash := CheckAncestors(search, compiled); }
    if clash {
      RefusalIsSound(search, compiled);
      diagnostics := diagnostics + [ContradictoryAssertions];
    }
  }
}
