/** The option list of a control: `scalar_choices`, and what it means. */
module ScalarOptions {
  import opened Bytes
  import opened Numbers
  import opened Json
  import opened StableSort
  import opened Choices

  // ------------------------------------------------------------------------ inferred kinds

  datatype Kind = StringKind | NumberKind | IntegerKind | BooleanKind | NullKind | ObjectKind | ArrayKind

  function KindOf(name: Bytes): Option<Kind> {
    if name == Ascii("string") then Some(StringKind)
    else if name == Ascii("number") then Some(NumberKind)
    else if name == Ascii("integer") then Some(IntegerKind)
    else if name == Ascii("boolean") then Some(BooleanKind)
    else if name == Ascii("null") then Some(NullKind)
    else if name == Ascii("object") then Some(ObjectKind)
    else if name == Ascii("array") then Some(ArrayKind)
    else None
  }

  /** `number` also stands for `integer`. */
  function WithInteger(kind: Kind): set<Kind> {
    if kind == NumberKind then {NumberKind, IntegerKind} else {kind}
  }

  function KindsOfNames(names: seq<Json>): Option<set<Kind>> {
    if names == [] then Some({})
    else
      var before, last := KindsOfNames(names[..|names| - 1]), names[|names| - 1];
      if before.None? || !last.String? || KindOf(last.content).None? then None
      else Some(before.value + WithInteger(KindOf(last.content).value))
  }

  function DeclaredKinds(declared: Json): Option<set<Kind>> {
    match declared
    case String(name) => if KindOf(name).None? then None else Some(WithInteger(KindOf(name).value))
    case Array(names) => KindsOfNames(names)
    case _ => None
  }

  function TypeDeclarations(applicable: seq<Applicable>): seq<Json> {
    if applicable == [] then []
    else
      var last := applicable[|applicable| - 1];
      TypeDeclarations(applicable[..|applicable| - 1]) +
      if Member(last.schema, TYPE).None? then [] else [Member(last.schema, TYPE).value]
  }

  /** The kinds that every declaration admits; nothing when some declaration is not understood. */
  ghost function CommonKinds(declarations: seq<Json>): Option<set<Kind>>
    requires declarations != []
  {
    var last := DeclaredKinds(declarations[|declarations| - 1]);
    if |declarations| == 1 then last
    else
      var before := CommonKinds(declarations[..|declarations| - 1]);
      if before.None? || last.None? then None else Some(before.value * last.value)
  }

  /** The one kind that all declarations leave: with `integer` if it is `number`, with `null` beside it if it is a
  scalar, and `null` itself if nothing else is left. */
  ghost predicate Infers(declarations: seq<Json>, kind: Kind) {
    && declarations != [] && CommonKinds(declarations).Some?
    && var common := CommonKinds(declarations).value;
       if kind == NullKind then common == {NullKind}
       else common - {NullKind} == WithInteger(kind) && (kind == ObjectKind || kind == ArrayKind ==> NullKind !in common)
  }

  /** Some kinds are left, but they are not one kind. */
  lemma NoKindIsLeft(declarations: seq<Json>, kinds: set<Kind>)
    requires declarations != [] && CommonKinds(declarations).Some? && kinds == CommonKinds(declarations).value - {NullKind}
    requires kinds == {} ==> NullKind !in CommonKinds(declarations).value
    requires (kinds != {NumberKind, IntegerKind} && |kinds| != 1)
          || (NullKind in CommonKinds(declarations).value && (ObjectKind in kinds || ArrayKind in kinds))
    ensures forall kind :: !Infers(declarations, kind)
  {
    hide CommonKinds;
    forall kind ensures !Infers(declarations, kind) {
      if kinds == {kind} {
        assert |kinds| == 1;
      }
    }
  }

  lemma OnlyKindIsInferred(declarations: seq<Json>, kind: Kind)
    requires Infers(declarations, kind)
    ensures forall other :: Infers(declarations, other) <==> other == kind
  {
    hide CommonKinds;
    assert kind != NullKind ==> kind in CommonKinds(declarations).value - {NullKind};
  }

  /** No declaration leaves `number` without `integer`. */
  lemma {:induction false} NumbersBringIntegers(declarations: seq<Json>)
    requires declarations != [] && CommonKinds(declarations).Some? && NumberKind in CommonKinds(declarations).value
    ensures IntegerKind in CommonKinds(declarations).value
  {
    var front, last := declarations[..|declarations| - 1], declarations[|declarations| - 1];
    if last.Array? {
      NumberNamesBringIntegers(last.items);
    }
    if front != [] {
      NumbersBringIntegers(front);
    }
  }

  lemma {:induction false} NumberNamesBringIntegers(names: seq<Json>)
    ensures KindsOfNames(names).Some? && NumberKind in KindsOfNames(names).value ==> IntegerKind in KindsOfNames(names).value
  {
    if names != [] {
      NumberNamesBringIntegers(names[..|names| - 1]);
      hide KindOf;
    }
  }

  /** `infer_kind`. */
  method InferKind(applicable: seq<Applicable>) returns (kind: Option<Kind>)
    ensures forall k :: kind == Some(k) <==> Infers(TypeDeclarations(applicable), k)
  {
    hide DeclaredKinds, TypeDeclarations;
    var declarations := TypeDeclarations(applicable);
    if declarations == [] || DeclaredKinds(declarations[0]).None? {
      FirstDecides(declarations);
      return None;
    }
    var kinds := DeclaredKinds(declarations[0]).value;
    for i := 1 to |declarations|
      invariant CommonKinds(declarations[..i]) == Some(kinds)
    {
      assert declarations[..i + 1][..i] == declarations[..i];
      var declared := DeclaredKinds(declarations[i]);
      if declared.None? {
        UnknownDecides(declarations, i);
        return None;
      }
      kinds := kinds * declared.value;
    }
    assert declarations[..|declarations|] == declarations;
    kind := KindLeft(declarations, kinds);
  }

  /** The one kind left, if there is one. */
  method KindLeft(ghost declarations: seq<Json>, common: set<Kind>) returns (kind: Option<Kind>)
    requires declarations != [] && CommonKinds(declarations) == Some(common)
    ensures forall k :: kind == Some(k) <==> Infers(declarations, k)
  {
    hide CommonKinds;
    var acceptsNull := NullKind in common;
    var kinds := common - {NullKind};
    if kinds == {} {
      if acceptsNull {
        OnlyKindIsInferred(declarations, NullKind);
        return Some(NullKind);
      }
      NoKindIsLeft(declarations, kinds);
      return None;
    }
    if acceptsNull && (ObjectKind in kinds || ArrayKind in kinds) {
      NoKindIsLeft(declarations, kinds);
      return None;
    }
    if kinds == {NumberKind, IntegerKind} {
      OnlyKindIsInferred(declarations, NumberKind);
      return Some(NumberKind);
    }
    if |kinds| == 1 {
      var only :| only in kinds;
      OneElement(kinds, only);
      NumbersAreNotAlone(declarations, only);
      OnlyKindIsInferred(declarations, only);
      return Some(only);
    }
    NoKindIsLeft(declarations, kinds);
    return None;
  }

  lemma NumbersAreNotAlone(declarations: seq<Json>, kind: Kind)
    requires declarations != [] && CommonKinds(declarations).Some? && CommonKinds(declarations).value - {NullKind} == {kind}
    ensures kind != NumberKind
  {
    var common := CommonKinds(declarations).value;
    assert kind in common && (IntegerKind in common <==> IntegerKind in common - {NullKind});
    if kind == NumberKind {
      NumbersBringIntegers(declarations);
    }
  }

  lemma OneElement<T>(s: set<T>, x: T)
    requires |s| == 1 && x in s
    ensures s == {x}
  {
    assert |s - {x}| == 0;
  }

  lemma FirstDecides(declarations: seq<Json>)
    requires declarations != [] ==> DeclaredKinds(declarations[0]).None?
    ensures declarations != [] ==> CommonKinds(declarations).None?
  {
    if declarations != [] {
      UnknownDecides(declarations, 0);
    }
  }

  /** One declaration that is not understood leaves no kind. */
  lemma {:induction false} UnknownDecides(declarations: seq<Json>, i: nat)
    requires i < |declarations| && DeclaredKinds(declarations[i]).None?
    ensures CommonKinds(declarations).None?
    decreases |declarations|
  {
    if i < |declarations| - 1 {
      UnknownDecides(declarations[..|declarations| - 1], i);
    }
  }

  /** The narrowest kind of a value. */
  function KindOfValue(v: Json): Kind {
    match v
    case Null => NullKind
    case Bool(_) => BooleanKind
    case Number(text) => if NumberIsInteger(text) then IntegerKind else NumberKind
    case String(_) => StringKind
    case Array(_) => ArrayKind
    case Object(_) => ObjectKind
  }

  lemma NameMatches(v: Json, name: Bytes)
    requires KindOf(name).Some?
    ensures MatchesType(v, name) <==> KindOfValue(v) in WithInteger(KindOf(name).value)
  {
    hide NumberIsInteger;
  }

  lemma {:induction false} NamesMatch(v: Json, names: seq<Json>)
    requires KindsOfNames(names).Some?
    ensures MatchesTypeDeclaration(v, Array(names)) <==> KindOfValue(v) in KindsOfNames(names).value
  {
    if names != [] {
      var front, last := names[..|names| - 1], names[|names| - 1];
      NamesMatch(v, front);
      NameMatches(v, last.content);
      assert names == front + [last];
      OneMoreName(v, front, last);
      hide KindOf, MatchesType, KindOfValue, MatchesTypeDeclaration, WithInteger;
    }
  }

  lemma OneMoreName(v: Json, names: seq<Json>, last: Json)
    ensures MatchesTypeDeclaration(v, Array(names + [last]))
       <==> MatchesTypeDeclaration(v, Array(names)) || (last.String? && MatchesType(v, last.content))
  {
    hide MatchesType;
    assert (names + [last])[|names|] == last;
    assert forall i | 0 <= i < |names| :: (names + [last])[i] == names[i];
  }

  /** What all declarations leave is what all of them match. */
  lemma {:induction false} CommonMatch(v: Json, declarations: seq<Json>)
    requires declarations != [] && CommonKinds(declarations).Some?
    ensures (forall i | 0 <= i < |declarations| :: MatchesTypeDeclaration(v, declarations[i]))
       <==> KindOfValue(v) in CommonKinds(declarations).value
  {
    var front, last := declarations[..|declarations| - 1], declarations[|declarations| - 1];
    DeclaredMatch(v, last);
    if front != [] {
      CommonMatch(v, front);
      hide KindOfValue, DeclaredKinds, MatchesTypeDeclaration;
      assert forall i | 0 <= i < |front| :: declarations[i] == front[i];
    }
  }

  lemma DeclaredMatch(v: Json, declared: Json)
    requires DeclaredKinds(declared).Some?
    ensures MatchesTypeDeclaration(v, declared) <==> KindOfValue(v) in DeclaredKinds(declared).value
  {
    match declared
    case String(name) => NameMatches(v, name);
    case Array(names) => NamesMatch(v, names);
    case _ =>
  }

  /** All declared types match. */
  predicate MatchesAllTypes(applicable: seq<Applicable>, v: Json) {
    forall i | 0 <= i < |applicable| && Member(applicable[i].schema, TYPE).Some? ::
      MatchesTypeDeclaration(v, Member(applicable[i].schema, TYPE).value)
  }

  lemma AllTypesAreDeclared(applicable: seq<Applicable>, v: Json)
    ensures MatchesAllTypes(applicable, v)
       <==> forall i | 0 <= i < |TypeDeclarations(applicable)| :: MatchesTypeDeclaration(v, TypeDeclarations(applicable)[i])
  {
    DeclarationsAreMembers(applicable);
    hide MatchesTypeDeclaration, TypeDeclarations, Member;
    var declarations := TypeDeclarations(applicable);
    forall i | 0 <= i < |declarations|
      ensures exists j :: 0 <= j < |applicable| && Member(applicable[j].schema, TYPE) == Some(declarations[i])
    {
      assert declarations[i] in declarations;
    }
    forall j | 0 <= j < |applicable| && Member(applicable[j].schema, TYPE).Some?
      ensures exists i :: 0 <= i < |declarations| && declarations[i] == Member(applicable[j].schema, TYPE).value
    {
      assert Member(applicable[j].schema, TYPE).value in declarations;
    }
  }

  /** An inferred kind is exact: the declared types leave its values, perhaps null, and nothing else. */
  lemma InferredKindIsExact(applicable: seq<Applicable>, kind: Kind, v: Json)
    requires Infers(TypeDeclarations(applicable), kind)
    ensures v != Null ==>
              (MatchesAllTypes(applicable, v) <==> kind != NullKind && KindOfValue(v) in WithInteger(kind))
  {
    AllTypesAreDeclared(applicable, v);
    CommonMatch(v, TypeDeclarations(applicable));
    hide CommonKinds, TypeDeclarations, MatchesAllTypes, MatchesTypeDeclaration;
    var common := CommonKinds(TypeDeclarations(applicable)).value;
    assert KindOfValue(v) in common - {NullKind} <==> KindOfValue(v) in common && KindOfValue(v) != NullKind;
  }

  lemma {:induction false} DeclarationsAreMembers(applicable: seq<Applicable>)
    ensures forall i | 0 <= i < |applicable| && Member(applicable[i].schema, TYPE).Some? ::
              Member(applicable[i].schema, TYPE).value in TypeDeclarations(applicable)
    ensures forall declared | declared in TypeDeclarations(applicable) ::
              exists j :: 0 <= j < |applicable| && Member(applicable[j].schema, TYPE) == Some(declared)
  {
    if applicable != [] {
      hide Member;
      var front, last := applicable[..|applicable| - 1], applicable[|applicable| - 1];
      DeclarationsAreMembers(front);
      assert last == applicable[|applicable| - 1];
      forall declared | declared in TypeDeclarations(applicable)
        ensures exists j :: 0 <= j < |applicable| && Member(applicable[j].schema, TYPE) == Some(declared)
      {
        if declared in TypeDeclarations(front) {
          var j :| 0 <= j < |front| && Member(front[j].schema, TYPE) == Some(declared);
          assert applicable[j] == front[j];
        }
      }
    }
  }

  predicate NoneIsFalse(applicable: seq<Applicable>) {
    forall i | 0 <= i < |applicable| :: applicable[i].schema != Bool(false)
  }

  /** When null is the only inferred kind, null satisfies every schema unless one of them is `false`. */
  lemma InferredNullIsAdmitted(applicable: seq<Applicable>)
    requires Infers(TypeDeclarations(applicable), NullKind)
    ensures TypesAdmit(applicable, Null) <==> NoneIsFalse(applicable)
  {
    CommonMatch(Null, TypeDeclarations(applicable));
    DeclarationsAreMembers(applicable);
    hide MatchesTypeDeclaration;
    if NoneIsFalse(applicable) {
      forall i | 0 <= i < |applicable| && Member(applicable[i].schema, TYPE).Some?
        ensures MatchesTypeDeclaration(Null, Member(applicable[i].schema, TYPE).value)
      {
        assert Member(applicable[i].schema, TYPE).value in TypeDeclarations(applicable);
      }
    }
  }

  // -------------------------------------------------------------------------- the sort key

  /** `scalar_choice_sort_key`: first by type, then by text. */
  function SortKey(v: Json): Key
    requires !IsStructured(v)
  {
    match v
    case Null => ([0], [])
    case Bool(flag) => ([1], if flag then Ascii("true") else Ascii("false"))
    case Number(text) => ([2], text)
    case String(content) => ([3], content)
  }

  lemma SortKeyIdentifies(v: Json, w: Json)
    requires !IsStructured(v) && !IsStructured(w) && SortKey(v) == SortKey(w)
    ensures v == w
  {
    assert [0 as Byte][0] != [1 as Byte][0] && [2 as Byte][0] != [3 as Byte][0];
    assert |Ascii("true")| != |Ascii("false")|;
    assert SortKey(v).0[0] == SortKey(w).0[0];
  }

  ghost predicate Increasing(choices: seq<Choice>)
    requires AllScalar(choices)
  {
    forall i, j | 0 <= i < j < |choices| :: KeyBelow(SortKey(choices[i].value), SortKey(choices[j].value))
  }

  function Keys(choices: seq<Choice>): (keyed: seq<Keyed<Choice>>)
    requires AllScalar(choices)
    ensures |keyed| == |choices|
    ensures forall i | 0 <= i < |choices| :: keyed[i] == Keyed(SortKey(choices[i].value), choices[i])
  {
    seq(|choices|, i requires 0 <= i < |choices| => Keyed(SortKey(choices[i].value), choices[i]))
  }

  function Items(keyed: seq<Keyed<Choice>>): (choices: seq<Choice>)
    ensures |choices| == |keyed| && forall i | 0 <= i < |keyed| :: choices[i] == keyed[i].item
  {
    seq(|keyed|, i requires 0 <= i < |keyed| => keyed[i].item)
  }

  function SortedChoices(choices: seq<Choice>): seq<Choice>
    requires AllScalar(choices)
  {
    Items(Sorted(Keys(choices)))
  }

  lemma SortedHoldsTheSame(xs: seq<Keyed<Choice>>)
    ensures |Sorted(xs)| == |xs|
    ensures forall x: Keyed<Choice> :: x in Sorted(xs) <==> x in xs
  {
    SortedIsOrdered(xs);
    hide Sorted;
    assert |multiset(Sorted(xs))| == |Sorted(xs)| && |multiset(xs)| == |xs|;
    forall x: Keyed<Choice> ensures x in Sorted(xs) <==> x in xs {
      assert x in Sorted(xs) <==> x in multiset(Sorted(xs));
      assert x in xs <==> x in multiset(xs);
    }
  }

  lemma ItemsHold(keyed: seq<Keyed<Choice>>, choices: seq<Choice>)
    requires AllScalar(choices) && forall x: Keyed<Choice> :: x in keyed <==> x in Keys(choices)
    ensures forall c :: c in Items(keyed) <==> c in choices
    ensures forall k | 0 <= k < |keyed| ::
              !IsStructured(keyed[k].item.value) && keyed[k].key == SortKey(keyed[k].item.value)
  {
    hide SortKey;
    forall c | c in Items(keyed) ensures c in choices {
      var k :| 0 <= k < |keyed| && keyed[k].item == c;
      assert keyed[k] in Keys(choices);
    }
    forall c | c in choices ensures c in Items(keyed) {
      var i :| 0 <= i < |choices| && choices[i] == c;
      assert Keys(choices)[i] in keyed;
      var k :| 0 <= k < |keyed| && keyed[k] == Keys(choices)[i];
      assert Items(keyed)[k] == c;
    }
    forall k | 0 <= k < |keyed|
      ensures !IsStructured(keyed[k].item.value) && keyed[k].key == SortKey(keyed[k].item.value)
    {
      assert keyed[k] in Keys(choices);
    }
  }

  lemma SortedPairsDiffer(choices: seq<Choice>, i: nat, j: nat)
    requires AllScalar(choices) && Distinct(choices) && i < j < |Sorted(Keys(choices))|
    ensures var sorted := Sorted(Keys(choices));
            !JsonEqual(sorted[i].item.value, sorted[j].item.value) && KeyBelow(sorted[i].key, sorted[j].key)
  {
    hide JsonEqual, SortKey, KeyBelow, Sorted;
    var keyed, sorted := Keys(choices), Sorted(Keys(choices));
    SortedIsOrdered(keyed);
    var k, l := PermutedPairs(sorted, keyed, i, j);
    PairsDiffer(choices, k, l);
    KeyBelowIsTotal(sorted[i].key, sorted[j].key);
  }

  /** Sorting distinct scalars puts them in strictly increasing order and keeps what is on offer. */
  lemma SortingKeepsOffer(choices: seq<Choice>, v: Json)
    requires AllScalar(choices) && Distinct(choices)
    ensures AllScalar(SortedChoices(choices)) && Distinct(SortedChoices(choices)) && Increasing(SortedChoices(choices))
    ensures |SortedChoices(choices)| == |choices|
    ensures Offered(SortedChoices(choices), v) <==> Offered(choices, v)
  {
    hide JsonEqual, SortKey, KeyBelow, Offered, Sorted;
    var sorted := Sorted(Keys(choices));
    SortedHoldsTheSame(Keys(choices));
    ItemsHold(sorted, choices);
    SameOffer(Items(sorted), choices, v);
    forall i, j | 0 <= i < j < |sorted|
      ensures !JsonEqual(sorted[i].item.value, sorted[j].item.value) && KeyBelow(sorted[i].key, sorted[j].key)
    {
      SortedPairsDiffer(choices, i, j);
    }
  }

  lemma PairsDiffer(choices: seq<Choice>, k: nat, l: nat)
    requires AllScalar(choices) && Distinct(choices) && k < |choices| && l < |choices| && k != l
    ensures !JsonEqual(choices[k].value, choices[l].value)
    ensures SortKey(choices[k].value) != SortKey(choices[l].value)
  {
    hide SortKey;
    if JsonEqual(choices[k].value, choices[l].value) {
      EqualIsSymmetric(choices[k].value, choices[l].value);
    }
    if SortKey(choices[k].value) == SortKey(choices[l].value) {
      SortKeyIdentifies(choices[k].value, choices[l].value);
    }
  }

  lemma SameOffer(left: seq<Choice>, right: seq<Choice>, v: Json)
    requires forall c :: c in left <==> c in right
    ensures Offered(left, v) <==> Offered(right, v)
  {
    hide JsonEqual;
    if Offered(left, v) {
      var i :| 0 <= i < |left| && JsonEqual(left[i].value, v);
      assert left[i] in right;
    }
    if Offered(right, v) {
      var i :| 0 <= i < |right| && JsonEqual(right[i].value, v);
      assert right[i] in left;
    }
  }

  // --------------------------------------------------------------------------- the compilation

  datatype ScalarChoices = ScalarChoices(values: seq<Choice>, selectable: bool, nullOnly: bool)

  datatype Fault =
    | StructuredConst | ConflictingConst | StructuredEnum
    | IncompatibleChoices | IncompatibleEnum | IncompatibleConst

  /** A finding names the schema to blame. Where the code expects a `const` to blame and finds none, it panics. */
  datatype Refusal = Refusal(fault: Fault, located: Applicable) | NothingToBlame

  ghost predicate HasSource(applicable: seq<Applicable>) {
    EnumSources(applicable) != [] || ConstSources(applicable) != [] || RecognizedSources(applicable) != []
  }

  ghost function SourceLists(applicable: seq<Applicable>): seq<seq<Json>> {
    ChoiceLists(RecognizedSources(applicable)) + EnumLists(EnumSources(applicable)) + ConstLists(ConstSources(applicable))
  }

  /** What all sources and all types allow is what the schemas admit. */
  lemma SourcesDecide(applicable: seq<Applicable>, v: Json)
    ensures AllAmong(SourceLists(applicable), v) && TypesAdmit(applicable, v) <==> Admits(applicable, v)
  {
    EnumsAdmit(applicable, v);
    ConstsAdmit(applicable, v);
    RecognizedSourcesAdmit(applicable, v);
    ChoiceListsOffer(RecognizedSources(applicable), v);
    var choices, enums := ChoiceLists(RecognizedSources(applicable)), EnumLists(EnumSources(applicable));
    JoinedLists(choices, enums, v);
    JoinedLists(choices + enums, ConstLists(ConstSources(applicable)), v);
    AdmitsByPart(applicable, v);
  }

  lemma JoinedLists(lists: seq<seq<Json>>, more: seq<seq<Json>>, v: Json)
    ensures AllAmong(lists + more, v) <==> AllAmong(lists, v) && AllAmong(more, v)
  {
    hide Among;
    assert forall i | 0 <= i < |lists| :: (lists + more)[i] == lists[i];
    assert forall i | 0 <= i < |more| :: (lists + more)[|lists| + i] == more[i];
  }

  lemma ChoiceListsOffer(sources: seq<Keyed<Recognition>>, v: Json)
    ensures AllAmong(ChoiceLists(sources), v) <==> RecognitionsOffer(sources, v)
  {
    hide JsonEqual;
    forall i | 0 <= i < |sources|
      ensures sources[i] in sources
      ensures Among(ChoiceLists(sources)[i], v) <==> Offered(sources[i].item.choices, v)
    {
      ValuesOffer(sources[i].item.choices, v);
    }
  }

  lemma ValuesOffer(choices: seq<Choice>, v: Json)
    ensures Among(ValuesOf(choices), v) <==> Offered(choices, v)
  {
    hide JsonEqual;
  }

  lemma AdmitsByPart(applicable: seq<Applicable>, v: Json)
    ensures Admits(applicable, v) <==>
      && (forall i | 0 <= i < |applicable| :: EnumAdmits(applicable[i].schema, v))
      && (forall i | 0 <= i < |applicable| :: ConstAdmits(applicable[i].schema, v))
      && (forall i | 0 <= i < |applicable| ::
            RecognizedAdmits(applicable[i].schema, false, v) && RecognizedAdmits(applicable[i].schema, true, v))
      && TypesAdmit(applicable, v)
  {
    hide Among, JsonEqual, Recognized, AnyOfAdmits, OneOfAdmits, MatchesTypeDeclaration, Elements, Member;
  }

  // ------------------------------------------------------------------------ what the answer means

  /** The list offers exactly the admitted values, each once, in the order that was asked for. */
  ghost predicate ChoicesAreRight(applicable: seq<Applicable>, c: ScalarChoices) {
    && (forall v :: Offered(c.values, v) <==> Admits(applicable, v))
    && c.values != [] && Distinct(c.values) && AllScalar(c.values) && !c.nullOnly
    && (c.selectable <==> ConstSources(applicable) == [])
    && (if RecognizedSources(applicable) != [] then Subsequence(c.values, RecognizedSources(applicable)[0].item.choices)
        else Increasing(c.values))
    && forall x | x in c.values ::
         FirstOf(SeedOf(RecognizedSources(applicable), EnumSources(applicable), ConstSources(applicable)), x)
  }

  ghost predicate RefusalIsRight(applicable: seq<Applicable>, fault: Fault, located: Applicable) {
    && located in applicable
    && match fault
       case StructuredConst => Member(located.schema, CONST).Some? && IsStructured(Member(located.schema, CONST).value)
       case StructuredEnum => Elements(located.schema, ENUM).Some? && exists v :: IsStructured(v) && Admits(applicable, v)
       case _ => forall v :: !Admits(applicable, v)
  }

  ghost predicate NoneStructured(constants: seq<(Applicable, Json)>) {
    forall i | 0 <= i < |constants| :: !IsStructured(constants[i].1)
  }

  ghost predicate AllAgree(constants: seq<(Applicable, Json)>) {
    forall i | 0 <= i < |constants| :: JsonEqual(constants[0].1, constants[i].1)
  }

  /** The first source in the order of the schemas is blamed; what is wrong with a `const` alone goes before everything
  else, and then a structured option before an empty list. */
  ghost predicate BlamesFirst(recognized: seq<Keyed<Recognition>>, enums: seq<(Applicable, seq<Json>)>,
                              constants: seq<(Applicable, Json)>, fault: Fault, located: Applicable) {
    match fault
    case StructuredConst =>
      exists i :: 0 <= i < |constants| && constants[i].0 == located && IsStructured(constants[i].1)
               && NoneStructured(constants[..i])
    case ConflictingConst =>
      && NoneStructured(constants)
      && exists i :: 0 <= i < |constants| && constants[i].0 == located && !JsonEqual(constants[0].1, constants[i].1)
                  && AllAgree(constants[..i])
    case StructuredEnum => ConstsAreFine(constants) && enums != [] && located == enums[0].0
    case IncompatibleChoices => ConstsAreFine(constants) && recognized != [] && located == recognized[0].item.located
    case IncompatibleEnum => ConstsAreFine(constants) && recognized == [] && enums != [] && located == enums[0].0
    case IncompatibleConst =>
      ConstsAreFine(constants) && recognized == [] && enums == [] && constants != [] && located == constants[0].0
  }

  ghost predicate ConstsAreFine(constants: seq<(Applicable, Json)>) {
    NoneStructured(constants) && AllAgree(constants)
  }

  ghost predicate AnswerIsRight(applicable: seq<Applicable>, kind: Option<Kind>,
                                r: Result<Option<ScalarChoices>, Refusal>) {
    if HasSource(applicable) then
      match r
      case Ok(Some(c)) => ChoicesAreRight(applicable, c)
      case Err(Refusal(fault, located)) => RefusalIsRight(applicable, fault, located)
      case _ => false
    else if kind != Some(NullKind) then r == Ok(None)
    else if TypesAdmit(applicable, Null) then r == Ok(Some(ScalarChoices([Unannotated(Null)], false, true)))
    else r == Err(NothingToBlame)
  }

  function FirstStructured(constants: seq<(Applicable, Json)>): (i: nat)
    ensures i <= |constants| && (i < |constants| ==> IsStructured(constants[i].1))
    ensures forall j | 0 <= j < i :: !IsStructured(constants[j].1)
  {
    if constants == [] || IsStructured(constants[0].1) then 0 else 1 + FirstStructured(constants[1..])
  }

  function FirstUnlike(constants: seq<(Applicable, Json)>, value: Json): (i: nat)
    ensures i <= |constants| && (i < |constants| ==> !JsonEqual(value, constants[i].1))
    ensures forall j | 0 <= j < i :: JsonEqual(value, constants[j].1)
  {
    if constants == [] then 0
    else
      var equal := JsonEqual(value, constants[0].1);
      hide JsonEqual;
      if !equal then 0 else 1 + FirstUnlike(constants[1..], value)
  }

  function Unannotate(values: seq<Json>): (choices: seq<Choice>)
    ensures |choices| == |values| && forall i | 0 <= i < |values| :: choices[i] == Unannotated(values[i])
  {
    seq(|values|, i requires 0 <= i < |values| => Unannotated(values[i]))
  }

  /** The first source gives the options; a constant choice goes before an `enum`, and that before a `const`. */
  function SeedOf(recognized: seq<Keyed<Recognition>>, enums: seq<(Applicable, seq<Json>)>,
                  constants: seq<(Applicable, Json)>): seq<Choice> {
    if recognized != [] then recognized[0].item.choices
    else if enums != [] then Unannotate(enums[0].1)
    else if constants != [] then [Unannotated(constants[0].1)]
    else [Unannotated(Null)]
  }

  function OtherChoices(recognized: seq<Keyed<Recognition>>): seq<seq<Json>> {
    if recognized == [] then [] else ChoiceLists(recognized[1..])
  }

  function OtherEnums(recognized: seq<Keyed<Recognition>>, enums: seq<(Applicable, seq<Json>)>): seq<seq<Json>> {
    if recognized != [] || enums == [] then EnumLists(enums) else EnumLists(enums[1..])
  }

  ghost predicate SeedAndOthersOffer(recognized: seq<Keyed<Recognition>>, enums: seq<(Applicable, seq<Json>)>,
                                     constants: seq<(Applicable, Json)>, v: Json) {
    && Offered(SeedOf(recognized, enums, constants), v) && AllAmong(OtherChoices(recognized), v)
    && AllAmong(OtherEnums(recognized, enums), v) && AllAmong(ConstLists(constants), v)
  }

  ghost predicate AllOffer(recognized: seq<Keyed<Recognition>>, enums: seq<(Applicable, seq<Json>)>,
                           constants: seq<(Applicable, Json)>, v: Json) {
    && AllAmong(ChoiceLists(recognized), v) && AllAmong(EnumLists(enums), v) && AllAmong(ConstLists(constants), v)
  }

  lemma FirstAndRest(first: seq<Json>, rest: seq<seq<Json>>, v: Json)
    ensures AllAmong([first] + rest, v) <==> Among(first, v) && AllAmong(rest, v)
  {
    hide Among;
    assert ([first] + rest)[0] == first;
    assert forall i | 0 <= i < |rest| :: ([first] + rest)[i + 1] == rest[i];
  }

  lemma UnannotatedOffer(values: seq<Json>, v: Json)
    ensures Offered(Unannotate(values), v) <==> Among(values, v)
  {
    hide JsonEqual;
  }

  /** Whichever source gives the options, all of them together decide. */
  lemma SeedAndOthers(recognized: seq<Keyed<Recognition>>, enums: seq<(Applicable, seq<Json>)>,
                      constants: seq<(Applicable, Json)>, v: Json)
    requires recognized != [] || enums != [] || constants != []
    ensures SeedAndOthersOffer(recognized, enums, constants, v) <==> AllOffer(recognized, enums, constants, v)
  {
    hide JsonEqual, Among, Offered, AllAmong;
    if recognized != [] {
      var first := ValuesOf(recognized[0].item.choices);
      assert ChoiceLists(recognized) == [first] + ChoiceLists(recognized[1..]);
      FirstAndRest(first, ChoiceLists(recognized[1..]), v);
      ValuesOffer(recognized[0].item.choices, v);
    } else {
      assert OtherChoices(recognized) == ChoiceLists(recognized) == [];
      if enums != [] {
        assert EnumLists(enums) == [enums[0].1] + EnumLists(enums[1..]);
        FirstAndRest(enums[0].1, EnumLists(enums[1..]), v);
        UnannotatedOffer(enums[0].1, v);
      } else {
        assert ConstLists(constants) == [[constants[0].1]] + ConstLists(constants[1..]);
        FirstAndRest([constants[0].1], ConstLists(constants[1..]), v);
        UnannotatedOffer([constants[0].1], v);
        assert Unannotate([constants[0].1]) == [Unannotated(constants[0].1)];
      }
    }
  }

  ghost function NarrowedSeed(recognized: seq<Keyed<Recognition>>, enums: seq<(Applicable, seq<Json>)>,
                              constants: seq<(Applicable, Json)>): seq<Choice> {
    Narrowed(Narrowed(Narrowed(SeedOf(recognized, enums, constants), OtherChoices(recognized)),
                      OtherEnums(recognized, enums)), ConstLists(constants))
  }

  lemma NarrowedSeedOffers(recognized: seq<Keyed<Recognition>>, enums: seq<(Applicable, seq<Json>)>,
                           constants: seq<(Applicable, Json)>, v: Json)
    ensures Offered(NarrowedSeed(recognized, enums, constants), v)
       <==> SeedAndOthersOffer(recognized, enums, constants, v)
    ensures Subsequence(NarrowedSeed(recognized, enums, constants), SeedOf(recognized, enums, constants))
  {
    hide Offered, AllAmong, Subsequence, Narrowed;
    var seed := SeedOf(recognized, enums, constants);
    var first := Narrowed(seed, OtherChoices(recognized));
    var second := Narrowed(first, OtherEnums(recognized, enums));
    NarrowedOffers(seed, OtherChoices(recognized), v);
    NarrowedOffers(first, OtherEnums(recognized, enums), v);
    NarrowedOffers(second, ConstLists(constants), v);
    NarrowedKeepsOrder(seed, OtherChoices(recognized));
    NarrowedKeepsOrder(first, OtherEnums(recognized, enums));
    NarrowedKeepsOrder(second, ConstLists(constants));
    SubsequenceIsTransitive(second, first, seed);
    SubsequenceIsTransitive(Narrowed(second, ConstLists(constants)), second, seed);
  }

  ghost function CandidatesOf(applicable: seq<Applicable>): seq<Choice> {
    Typed(NarrowedSeed(RecognizedSources(applicable), EnumSources(applicable), ConstSources(applicable)), applicable)
  }

  lemma CandidatesOffer(applicable: seq<Applicable>, v: Json)
    requires HasSource(applicable)
    ensures Offered(CandidatesOf(applicable), v) <==> Admits(applicable, v)
    ensures RecognizedSources(applicable) != [] ==>
              Subsequence(CandidatesOf(applicable), RecognizedSources(applicable)[0].item.choices)
  {
    hide Offered, TypesAdmit, Admits, Subsequence, Typed, NarrowedSeed, RecognizedSources, EnumSources, ConstSources,
         AllAmong;
    var recognized, enums, constants := RecognizedSources(applicable), EnumSources(applicable), ConstSources(applicable);
    SourcesDecide(applicable, v);
    JoinedLists(ChoiceLists(recognized), EnumLists(enums), v);
    JoinedLists(ChoiceLists(recognized) + EnumLists(enums), ConstLists(constants), v);
    SeedAndOthers(recognized, enums, constants, v);
    NarrowedSeedOffers(recognized, enums, constants, v);
    TypedOffers(NarrowedSeed(recognized, enums, constants), applicable, v);
    NarrowingKeepsOrder(NarrowedSeed(recognized, enums, constants), [], applicable);
    SubsequenceIsTransitive(CandidatesOf(applicable), NarrowedSeed(recognized, enums, constants),
                            SeedOf(recognized, enums, constants));
  }

  /** Of several equal values of the first source, the first one is the candidate. */
  lemma CandidatesFirst(applicable: seq<Applicable>, x: Choice)
    requires x in Unique(CandidatesOf(applicable))
    ensures FirstOf(SeedOf(RecognizedSources(applicable), EnumSources(applicable), ConstSources(applicable)), x)
  {
    hide FirstOf, Typed, NarrowedSeed, RecognizedSources, EnumSources, ConstSources, Unique;
    var recognized, enums, constants := RecognizedSources(applicable), EnumSources(applicable), ConstSources(applicable);
    UniqueFirst(CandidatesOf(applicable), x);
    TypedFirst(NarrowedSeed(recognized, enums, constants), applicable, x);
    NarrowedSeedFirst(recognized, enums, constants, x);
  }

  lemma NarrowedSeedFirst(recognized: seq<Keyed<Recognition>>, enums: seq<(Applicable, seq<Json>)>,
                          constants: seq<(Applicable, Json)>, x: Choice)
    requires FirstOf(NarrowedSeed(recognized, enums, constants), x)
    ensures FirstOf(SeedOf(recognized, enums, constants), x)
  {
    hide FirstOf, Narrowed;
    var seed := SeedOf(recognized, enums, constants);
    var first := Narrowed(seed, OtherChoices(recognized));
    var second := Narrowed(first, OtherEnums(recognized, enums));
    NarrowedFirst(second, ConstLists(constants), x);
    NarrowedFirst(first, OtherEnums(recognized, enums), x);
    NarrowedFirst(seed, OtherChoices(recognized), x);
  }

  lemma NullCandidates(applicable: seq<Applicable>)
    requires !HasSource(applicable)
    ensures CandidatesOf(applicable) == if TypesAdmit(applicable, Null) then [Unannotated(Null)] else []
  {
    hide TypesAdmit, RecognizedSources, EnumSources, ConstSources;
    var only := [Unannotated(Null)];
    assert only[..0] == [];
    assert NarrowedSeed([], [], []) == only;
    assert Typed(only, applicable) == if TypesAdmit(applicable, Null) then only else [];
  }

  /** The list before structured values are refused: a seed, narrowed by the other sources and by the types. */
  method Candidates(applicable: seq<Applicable>, recognized: seq<Keyed<Recognition>>,
                    enums: seq<(Applicable, seq<Json>)>, constants: seq<(Applicable, Json)>)
    returns (values: seq<Choice>)
    requires recognized == RecognizedSources(applicable) && enums == EnumSources(applicable)
    requires constants == ConstSources(applicable)
    ensures values == CandidatesOf(applicable)
  {
    values := SeedOf(recognized, enums, constants);
    values := Narrow(values, OtherChoices(recognized));
    values := Narrow(values, OtherEnums(recognized, enums));
    values := Narrow(values, ConstLists(constants));
    values := RetainTyped(values, applicable);
  }

  // -------------------------------------------------------------------- why each answer is right

  lemma SourcesAreMembers(applicable: seq<Applicable>)
    ensures forall source | source in EnumSources(applicable) ::
              source.0 in applicable && Elements(source.0.schema, ENUM).Some?
    ensures forall source | source in ConstSources(applicable) ::
              source.0 in applicable && Member(source.0.schema, CONST) == Some(source.1)
    ensures forall source | source in RecognizedSources(applicable) :: SoundSource(applicable, source)
  {
    EnumSourcesHaveEnums(applicable);
    ConstsAdmit(applicable, Null);
    RecognizedSourcesAdmit(applicable, Null);
  }

  lemma {:induction false} EnumSourcesHaveEnums(applicable: seq<Applicable>)
    ensures forall source | source in EnumSources(applicable) ::
              source.0 in applicable && Elements(source.0.schema, ENUM).Some?
  {
    if applicable != [] {
      hide Elements;
      EnumSourcesHaveEnums(applicable[..|applicable| - 1]);
    }
  }

  lemma ConflictingConstsAdmitNothing(applicable: seq<Applicable>, i: nat)
    requires i < |ConstSources(applicable)|
    requires !JsonEqual(ConstSources(applicable)[0].1, ConstSources(applicable)[i].1)
    ensures forall v :: !Admits(applicable, v)
  {
    hide JsonEqual, Admits, ConstSources, AllAmong;
    var constants := ConstSources(applicable);
    forall v ensures !Admits(applicable, v) {
      if Admits(applicable, v) {
        SourcesDecide(applicable, v);
        BothConstants(applicable, 0, v);
        BothConstants(applicable, i, v);
        EqualIsSymmetric(constants[i].1, v);
        EqualIsTransitive(constants[0].1, v, constants[i].1);
      }
    }
  }

  lemma BothConstants(applicable: seq<Applicable>, i: nat, v: Json)
    requires AllAmong(SourceLists(applicable), v) && i < |ConstSources(applicable)|
    ensures JsonEqual(ConstSources(applicable)[i].1, v)
  {
    hide JsonEqual, RecognizedSources, EnumSources, ConstSources;
    var constants := ConstSources(applicable);
    var before := ChoiceLists(RecognizedSources(applicable)) + EnumLists(EnumSources(applicable));
    assert SourceLists(applicable)[|before| + i] == [constants[i].1];
    assert Among(SourceLists(applicable)[|before| + i], v);
    AmongOne(constants[i].1, v);
  }

  lemma ScalarSubsequence(kept: seq<Choice>, from: seq<Choice>)
    requires Subsequence(kept, from) && AllScalar(from)
    ensures AllScalar(kept)
  {
    SubsequenceElements(kept, from);
    hide Subsequence;
    forall i | 0 <= i < |kept| ensures !IsStructured(kept[i].value) {
      assert kept[i] in from;
    }
  }

  /** A structured candidate can only come from an `enum`, and every schema admits it. */
  lemma StructuredCandidate(applicable: seq<Applicable>)
    requires !AllScalar(CandidatesOf(applicable))
    requires forall i | 0 <= i < |ConstSources(applicable)| :: !IsStructured(ConstSources(applicable)[i].1)
    ensures EnumSources(applicable) != [] && HasSource(applicable)
    ensures exists v :: IsStructured(v) && Admits(applicable, v)
  {
    hide TypesAdmit, Admits, Subsequence, Typed, NarrowedSeed, RecognizedSources, EnumSources, ConstSources, JsonEqual;
    var recognized, enums, constants := RecognizedSources(applicable), EnumSources(applicable), ConstSources(applicable);
    var narrowed := NarrowedSeed(recognized, enums, constants);
    if enums == [] {
      SourcesAreMembers(applicable);
      assert recognized != [] ==> recognized[0] in recognized;
      NarrowedSeedOffers(recognized, enums, constants, Null);
      ScalarSubsequence(narrowed, SeedOf(recognized, enums, constants));
      NarrowingKeepsOrder(narrowed, [], applicable);
      ScalarSubsequence(Typed(narrowed, applicable), narrowed);
    }
    var i :| 0 <= i < |CandidatesOf(applicable)| && IsStructured(CandidatesOf(applicable)[i].value);
    EqualToItself(CandidatesOf(applicable)[i].value);
    CandidatesOffer(applicable, CandidatesOf(applicable)[i].value);
  }

  lemma OffersItsOwn(choices: seq<Choice>, i: nat)
    requires i < |choices|
    ensures Offered(choices, choices[i].value)
  {
    EqualToItself(choices[i].value);
    hide JsonEqual;
  }

  lemma UniqueIsEmpty(choices: seq<Choice>)
    requires Unique(choices) == []
    ensures choices == []
  {
    if choices != [] {
      OffersItsOwn(choices, 0);
      UniqueOffers(choices, choices[0].value);
    }
  }

  lemma NothingAdmitted(applicable: seq<Applicable>)
    requires HasSource(applicable) && Unique(CandidatesOf(applicable)) == []
    ensures forall v :: !Admits(applicable, v)
  {
    hide Admits, HasSource;
    UniqueIsEmpty(CandidatesOf(applicable));
    forall v ensures !Admits(applicable, v) {
      CandidatesOffer(applicable, v);
    }
  }

  function InOrder(choices: seq<Choice>, recognized: seq<Keyed<Recognition>>): seq<Choice>
    requires AllScalar(choices)
  {
    if recognized == [] then SortedChoices(choices) else choices
  }

  /** The options that are left, each once and in order, are the right ones. */
  lemma RemainingAreRight(applicable: seq<Applicable>)
    requires AllScalar(CandidatesOf(applicable)) && HasSource(applicable) && Unique(CandidatesOf(applicable)) != []
    ensures AllScalar(Unique(CandidatesOf(applicable)))
    ensures ChoicesAreRight(applicable, ScalarChoices(InOrder(Unique(CandidatesOf(applicable)), RecognizedSources(applicable)),
                                                      ConstSources(applicable) == [], false))
  {
    hide Admits, Offered, Subsequence, Distinct, Unique, CandidatesOf, SortedChoices, RecognizedSources, ConstSources,
         HasSource, Increasing, FirstOf, SeedOf, EnumSources;
    var candidates, recognized := CandidatesOf(applicable), RecognizedSources(applicable);
    var unique := Unique(candidates);
    NarrowingKeepsOrder(candidates, [], []);
    ScalarSubsequence(unique, candidates);
    CandidatesOffer(applicable, Null);
    UniqueOffers(candidates, Null);
    SortingKeepsOffer(unique, Null);
    forall v ensures Offered(InOrder(unique, recognized), v) <==> Admits(applicable, v) {
      CandidatesOffer(applicable, v);
      UniqueOffers(candidates, v);
      SortingKeepsOffer(unique, v);
    }
    if recognized != [] {
      SubsequenceIsTransitive(unique, candidates, recognized[0].item.choices);
    }
    SortedChoicesHold(unique);
    forall x | x in InOrder(unique, recognized)
      ensures FirstOf(SeedOf(recognized, EnumSources(applicable), ConstSources(applicable)), x)
    {
      CandidatesFirst(applicable, x);
    }
  }

  lemma SortedChoicesHold(choices: seq<Choice>)
    requires AllScalar(choices)
    ensures forall x :: x in SortedChoices(choices) <==> x in choices
  {
    hide SortKey, Sorted;
    SortedHoldsTheSame(Keys(choices));
    ItemsHold(Sorted(Keys(choices)), choices);
  }

  /** `scalar_choices`. */
  method CompileScalarChoices(applicable: seq<Applicable>, kind: Option<Kind>)
    returns (r: Result<Option<ScalarChoices>, Refusal>)
    ensures AnswerIsRight(applicable, kind, r)
    ensures r.Err? && r.error.Refusal? ==>
              BlamesFirst(RecognizedSources(applicable), EnumSources(applicable), ConstSources(applicable), r.error.fault,
                          r.error.located)
  {
    hide CandidatesOf, ChoicesAreRight, EnumSources, ConstSources, RecognizedSources, Unique, TypesAdmit, Admits,
         SortedChoices;
    var enums, constants := EnumSources(applicable), ConstSources(applicable);
    var recognized := RecognizedChoices(applicable);
    SourcesAreMembers(applicable);
    var hasSource := enums != [] || constants != [] || recognized != [];
    var nullOnly := !hasSource && kind == Some(NullKind);
    if !hasSource && !nullOnly {
      return Ok(None);
    }
    var structured := FirstStructured(constants);
    if structured < |constants| {
      assert NoneStructured(constants[..structured]);
      return Err(Refusal(StructuredConst, constants[structured].0));
    }
    if constants != [] {
      var unlike := FirstUnlike(constants, constants[0].1);
      if unlike < |constants| {
        ConflictingConstsAdmitNothing(applicable, unlike);
        assert constants[..unlike] != [] ==> AllAgree(constants[..unlike]);
        return Err(Refusal(ConflictingConst, constants[unlike].0));
      }
    }
    var values := Candidates(applicable, recognized, enums, constants);
    if !AllScalar(values) {
      StructuredCandidate(applicable);
      return Err(Refusal(StructuredEnum, enums[0].0));
    }
    var unique := DropDuplicates(values);
    if unique == [] {
      BlameIsRight(applicable);
      return Err(Blame(recognized, enums, constants));
    }
    if hasSource {
      RemainingAreRight(applicable);
    } else {
      NullCandidates(applicable);
      OneIsUnique(Unannotated(Null));
    }
    unique := InOrder(unique, recognized);
    return Ok(Some(ScalarChoices(unique, (enums != [] || recognized != []) && constants == [], nullOnly)));
  }

  /** Who is to blame when no option is left. */
  function Blame(recognized: seq<Keyed<Recognition>>, enums: seq<(Applicable, seq<Json>)>,
                 constants: seq<(Applicable, Json)>): Refusal {
    if recognized != [] then Refusal(IncompatibleChoices, recognized[0].item.located)
    else if enums != [] then Refusal(IncompatibleEnum, enums[0].0)
    else if constants != [] then Refusal(IncompatibleConst, constants[0].0)
    else NothingToBlame
  }

  lemma BlameIsRight(applicable: seq<Applicable>)
    requires Unique(CandidatesOf(applicable)) == []
    ensures var blame := Blame(RecognizedSources(applicable), EnumSources(applicable), ConstSources(applicable));
            if HasSource(applicable) then blame.Refusal? && RefusalIsRight(applicable, blame.fault, blame.located)
            else blame == NothingToBlame && !TypesAdmit(applicable, Null)
  {
    hide CandidatesOf, EnumSources, ConstSources, RecognizedSources, TypesAdmit, Admits;
    SourcesAreMembers(applicable);
    if HasSource(applicable) {
      NothingAdmitted(applicable);
      var recognized, enums, constants := RecognizedSources(applicable), EnumSources(applicable), ConstSources(applicable);
      assert recognized != [] ==> recognized[0] in recognized;
      assert enums != [] ==> enums[0] in enums;
      assert constants != [] ==> constants[0] in constants;
    } else {
      NullCandidates(applicable);
      UniqueIsEmpty(CandidatesOf(applicable));
    }
  }

  lemma OneIsUnique(choice: Choice)
    requires !IsStructured(choice.value)
    ensures Unique([]) == [] && Unique([choice]) == [choice] && SortedChoices([choice]) == [choice]
  {
    hide JsonEqual;
    assert [choice][..0] == [];
    var keyed := Keys([choice]);
    assert keyed[..0] == [] && keyed == [keyed[0]];
    assert Sorted(keyed) == Insert(Sorted(keyed[..0]), keyed[0]) == keyed;
  }

  // ----------------------------------------------------------------- when compilation succeeds

  /** With a source, compilation succeeds exactly when no `const` is structured and the schemas admit some value,
  and only scalars. */
  lemma WhenChoicesCompile(applicable: seq<Applicable>, kind: Option<Kind>, r: Result<Option<ScalarChoices>, Refusal>)
    requires HasSource(applicable) && AnswerIsRight(applicable, kind, r)
    ensures r.Ok? <==>
      && (forall i | 0 <= i < |applicable| && Member(applicable[i].schema, CONST).Some? ::
            !IsStructured(Member(applicable[i].schema, CONST).value))
      && (exists v :: Admits(applicable, v))
      && (forall v | Admits(applicable, v) :: !IsStructured(v))
  {
    hide Admits, HasSource, JsonEqual, RecognizedSources, EnumSources, ConstSources, Member, Elements, Offered;
    match r {
      case Ok(Some(c)) =>
        OffersItsOwn(c.values, 0);
        forall v | Admits(applicable, v) ensures !IsStructured(v) {
          ScalarOffer(c.values, v);
        }
        AdmittedConsts(applicable, c.values[0].value);
      case _ =>
    }
  }

  lemma ScalarOffer(choices: seq<Choice>, v: Json)
    requires AllScalar(choices) && Offered(choices, v)
    ensures !IsStructured(v)
  {
  }

  lemma AdmittedConsts(applicable: seq<Applicable>, v: Json)
    requires Admits(applicable, v) && !IsStructured(v)
    ensures forall i | 0 <= i < |applicable| && Member(applicable[i].schema, CONST).Some? ::
              !IsStructured(Member(applicable[i].schema, CONST).value)
  {
    forall i | 0 <= i < |applicable| && Member(applicable[i].schema, CONST).Some?
      ensures !IsStructured(Member(applicable[i].schema, CONST).value)
    {
      assert SchemaAdmits(applicable[i].schema, v);
    }
  }

  /** The one case without an answer: null is the only kind, no keyword lists options, and a schema is `false`. */
  lemma WhenNothingIsToBlame(applicable: seq<Applicable>, r: Result<Option<ScalarChoices>, Refusal>)
    requires Infers(TypeDeclarations(applicable), NullKind)
    requires AnswerIsRight(applicable, Some(NullKind), r)
    ensures r == Err(NothingToBlame) <==> !HasSource(applicable) && !NoneIsFalse(applicable)
  {
    hide HasSource, TypesAdmit, CommonKinds, TypeDeclarations, Admits;
    InferredNullIsAdmitted(applicable);
  }

  lemma {:induction false} NoKeywordNoSource(applicable: seq<Applicable>)
    requires forall i | 0 <= i < |applicable| ::
               var schema := applicable[i].schema;
               && Member(schema, ENUM).None? && Member(schema, CONST).None?
               && Member(schema, ANY_OF).None? && Member(schema, ONE_OF).None?
    ensures EnumSources(applicable) == [] && ConstSources(applicable) == []
    ensures RecognitionsOf(applicable, false) == [] && RecognitionsOf(applicable, true) == []
  {
    if applicable != [] {
      NoKeywordNoSource(applicable[..|applicable| - 1]);
      hide Member;
    }
  }

  lemma NullIsAKind(name: Bytes)
    requires name == Ascii("null")
    ensures KindOf(name) == Some(NullKind)
  {
    assert name[0] == 110 && |name| == 4;
    assert |Ascii("string")| == 6 && |Ascii("number")| == 6 && |Ascii("integer")| == 7 && |Ascii("boolean")| == 7;
  }

  lemma OneDeclaration(applicable: seq<Applicable>, declared: Json)
    requires |applicable| == 2 && Member(applicable[0].schema, TYPE) == Some(declared)
    requires Member(applicable[1].schema, TYPE).None?
    ensures TypeDeclarations(applicable) == [declared]
  {
    hide Member;
    assert applicable[..1][..0] == [];
    assert TypeDeclarations(applicable[..1]) == [declared];
  }

  lemma KeywordsDiffer()
    ensures TYPE != ENUM && TYPE != CONST && TYPE != ANY_OF && TYPE != ONE_OF
  {
    assert TYPE[0] == 116 && ENUM[0] == 101 && CONST[0] == 99 && ANY_OF[0] == 97 && ONE_OF[0] == 111;
  }

  /** That case exists: a null type next to the schema `false`. */
  lemma ANullTypeBesideFalse(applicable: seq<Applicable>)
    requires |applicable| == 2 && applicable[0].schema == Object(map[TYPE := String(Ascii("null"))])
    requires applicable[1].schema == Bool(false)
    ensures !HasSource(applicable) && !NoneIsFalse(applicable)
    ensures Infers(TypeDeclarations(applicable), NullKind)
  {
    hide KindOf, RecognitionsOf, EnumSources, ConstSources, TypeDeclarations;
    KeywordsDiffer();
    NoKeywordNoSource(applicable);
    NullIsAKind(Ascii("null"));
    OneDeclaration(applicable, String(Ascii("null")));
    var none: seq<Keyed<Recognition>> := [];
    assert RecognitionsOf(applicable, false) + RecognitionsOf(applicable, true) == none;
    assert Sorted(none) == [];
  }
}
