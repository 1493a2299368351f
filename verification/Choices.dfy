/** Compiling `enum`, `const`, `type` and constant `oneOf`/`anyOf` into one list of options. */
module Choices {
  import opened Bytes
  import opened Numbers
  import opened Json
  import opened PointerText
  import opened StableSort

  /** An option with the annotations its source gave it. */
  datatype Choice = Choice(value: Json, title: Option<Bytes>, description: Option<Bytes>)

  /** One of the schemas that apply together at a place, and where it comes from. */
  datatype Applicable = Applicable(schema: Json, resource: Bytes, pointer: Bytes)

  function Unannotated(value: Json): Choice {
    Choice(value, None, None)
  }

  predicate IsStructured(v: Json) {
    v.Array? || v.Object?
  }

  function Member(schema: Json, name: Bytes): Option<Json> {
    if schema.Object? && name in schema.members then Some(schema.members[name]) else None
  }

  function Elements(schema: Json, name: Bytes): Option<seq<Json>> {
    match Member(schema, name)
    case Some(Array(items)) => Some(items)
    case _ => None
  }

  function TextMember(schema: Json, name: Bytes): Option<Bytes> {
    match Member(schema, name)
    case Some(String(content)) => Some(content)
    case _ => None
  }

  const ENUM: Bytes := Ascii("enum")
  const CONST: Bytes := Ascii("const")
  const TYPE: Bytes := Ascii("type")
  const ANY_OF: Bytes := Ascii("anyOf")
  const ONE_OF: Bytes := Ascii("oneOf")
  const TITLE: Bytes := Ascii("title")
  const DESCRIPTION: Bytes := Ascii("description")

  // ------------------------------------------------------------------------------- types

  predicate MatchesType(v: Json, kind: Bytes) {
    if kind == Ascii("string") then v.String?
    else if kind == Ascii("number") then v.Number?
    else if kind == Ascii("integer") then v.Number? && NumberIsInteger(v.text)
    else if kind == Ascii("boolean") then v.Bool?
    else if kind == Ascii("null") then v.Null?
    else if kind == Ascii("object") then v.Object?
    else if kind == Ascii("array") then v.Array?
    else false
  }

  predicate MatchesTypeDeclaration(v: Json, declared: Json) {
    match declared
    case String(kind) => MatchesType(v, kind)
    case Array(kinds) => exists i | 0 <= i < |kinds| :: kinds[i].String? && MatchesType(v, kinds[i].content)
    case _ => false
  }

  lemma IntegerType(v: Json)
    ensures MatchesType(v, Ascii("integer")) <==> v.Number? && NumberIsInteger(v.text)
  {
    hide NumberIsInteger;
    assert |Ascii("integer")| == 7 && |Ascii("string")| == 6 && |Ascii("number")| == 6;
  }

  /** `integer` accepts exactly the numbers whose value is whole, however they are written. */
  lemma IntegerTypeIsExact(l: Literal)
    requires l.Valid()
    ensures MatchesType(Number(l.Text()), Ascii("integer")) <==> IsWhole(l.Value())
  {
    hide MatchesType, NumberIsInteger;
    IntegerType(Number(l.Text()));
    IntegersHaveNonnegativeScale(l);
  }

  lemma EqualValuesHaveOneType(v: Json, w: Json, kind: Bytes)
    requires JsonEqual(v, w)
    ensures MatchesType(v, kind) <==> MatchesType(w, kind)
  {
    EqualValuesAreIntegersAlike(v, w);
    hide NumberIsInteger, JsonEqual, Ascii;
  }

  lemma EqualValuesAreIntegersAlike(v: Json, w: Json)
    requires JsonEqual(v, w)
    ensures v.Null? == w.Null? && v.Bool? == w.Bool? && v.Number? == w.Number? && v.String? == w.String?
    ensures v.Array? == w.Array? && v.Object? == w.Object?
    ensures v.Number? ==> NumberIsInteger(v.text) == NumberIsInteger(w.text)
  {
    hide NumberNormalForm;
  }

  lemma EqualValuesMatchAlike(v: Json, w: Json, declared: Json)
    requires JsonEqual(v, w)
    ensures MatchesTypeDeclaration(v, declared) <==> MatchesTypeDeclaration(w, declared)
  {
    hide JsonEqual, MatchesType;
    forall kind: Bytes ensures MatchesType(v, kind) <==> MatchesType(w, kind) {
      EqualValuesHaveOneType(v, w, kind);
    }
  }

  // ------------------------------------------------------------------- what schemas admit

  predicate Among(values: seq<Json>, v: Json) {
    exists i | 0 <= i < |values| :: JsonEqual(values[i], v)
  }

  predicate Offered(choices: seq<Choice>, v: Json) {
    exists i | 0 <= i < |choices| :: JsonEqual(choices[i].value, v)
  }

  /** A branch of a constant choice: a constant, perhaps a type, and nothing else that asserts. */
  ghost predicate BranchAdmits(branch: Json, v: Json) {
    && Member(branch, CONST).Some? && JsonEqual(Member(branch, CONST).value, v)
    && (Member(branch, TYPE).Some? ==> MatchesTypeDeclaration(v, Member(branch, TYPE).value))
  }

  ghost predicate AnyOfAdmits(branches: seq<Json>, v: Json) {
    exists i :: 0 <= i < |branches| && BranchAdmits(branches[i], v)
  }

  ghost predicate OneOfAdmits(branches: seq<Json>, v: Json) {
    exists i :: 0 <= i < |branches| && BranchAdmits(branches[i], v)
             && forall j | 0 <= j < |branches| && j != i :: !BranchAdmits(branches[j], v)
  }

  /** Sections 6.1.1 to 6.1.3 of JSON Schema Validation 2020-12, with recognised `anyOf` and `oneOf` of the core. */
  ghost predicate SchemaAdmits(schema: Json, v: Json) {
    && schema != Bool(false)
    && (Elements(schema, ENUM).Some? ==> Among(Elements(schema, ENUM).value, v))
    && (Member(schema, CONST).Some? ==> JsonEqual(Member(schema, CONST).value, v))
    && (Member(schema, TYPE).Some? ==> MatchesTypeDeclaration(v, Member(schema, TYPE).value))
    && (Recognized(schema, false) ==> AnyOfAdmits(Elements(schema, ANY_OF).value, v))
    && (Recognized(schema, true) ==> OneOfAdmits(Elements(schema, ONE_OF).value, v))
  }

  ghost predicate Admits(applicable: seq<Applicable>, v: Json) {
    forall i | 0 <= i < |applicable| :: SchemaAdmits(applicable[i].schema, v)
  }

  // --------------------------------------------------------------------- constant choices

  /** The keywords of the Draft 2020-12 vocabularies; any other keyword is an annotation. */
  function DialectKeywords(): seq<string> {
    ["$anchor", "$comment", "$defs", "$dynamicAnchor", "$dynamicRef", "$id", "$ref", "$schema", "$vocabulary",
     "additionalProperties", "allOf", "anyOf", "const", "contains", "contentEncoding", "contentMediaType",
     "contentSchema", "default", "dependentRequired", "dependentSchemas", "deprecated", "description", "else", "enum",
     "examples", "exclusiveMaximum", "exclusiveMinimum", "format", "if", "items", "maxContains", "maxItems",
     "maxLength", "maxProperties", "maximum", "minContains", "minItems", "minLength", "minProperties", "minimum",
     "multipleOf", "not", "oneOf", "pattern", "patternProperties", "prefixItems", "properties", "propertyNames",
     "readOnly", "required", "then", "title", "type", "unevaluatedItems", "unevaluatedProperties", "uniqueItems",
     "writeOnly"]
  }

  /** The keywords a branch of a constant choice may carry. */
  function BranchKeywords(): seq<string> {
    ["const", "type", "title", "description", "$comment", "deprecated", "examples"]
  }

  predicate Lists(keywords: seq<string>, name: Bytes) {
    exists i | 0 <= i < |keywords| ::
      |name| == |keywords[i]| && forall j | 0 <= j < |name| :: name[j] == keywords[i][j] as int
  }

  predicate AssertsMore(members: map<Bytes, Json>) {
    exists name | name in members.Keys :: !Lists(BranchKeywords(), name) && Lists(DialectKeywords(), name)
  }

  datatype Cause = BooleanBranch | NonConstantBranch | DuplicateConstant

  /** Why a branch disqualifies its applicator, if it does. */
  function CauseOf(branch: Json): Option<Cause> {
    if branch.Bool? then Some(BooleanBranch)
    else if Member(branch, CONST).None? || IsStructured(Member(branch, CONST).value) || AssertsMore(branch.members)
    then Some(NonConstantBranch)
    else None
  }

  function ConstantOf(branch: Json): Json
    requires CauseOf(branch).None?
  {
    Member(branch, CONST).value
  }

  predicate AllConstant(branches: seq<Json>) {
    forall i | 0 <= i < |branches| :: CauseOf(branches[i]).None?
  }

  predicate DistinctConstants(branches: seq<Json>)
    requires AllConstant(branches)
  {
    forall i, j | 0 <= i < j < |branches| :: !JsonEqual(ConstantOf(branches[i]), ConstantOf(branches[j]))
  }

  predicate IsConstantChoice(oneOf: bool, branches: seq<Json>) {
    AllConstant(branches) && (oneOf ==> DistinctConstants(branches))
  }

  predicate Recognized(schema: Json, oneOf: bool) {
    var branches := Elements(schema, if oneOf then ONE_OF else ANY_OF);
    branches.Some? && IsConstantChoice(oneOf, branches.value)
  }

  predicate SatisfiesOwnType(branch: Json)
    requires CauseOf(branch).None?
  {
    Member(branch, TYPE).Some? ==> MatchesTypeDeclaration(ConstantOf(branch), Member(branch, TYPE).value)
  }

  function ChoiceOf(branch: Json): Choice
    requires CauseOf(branch).None?
  {
    Choice(ConstantOf(branch), TextMember(branch, TITLE), TextMember(branch, DESCRIPTION))
  }

  /** The options of a constant choice: one for each distinct constant its own type admits. */
  ghost function BranchChoices(branches: seq<Json>): seq<Choice>
    requires AllConstant(branches)
  {
    if branches == [] then []
    else
      var last := branches[|branches| - 1];
      var before := BranchChoices(branches[..|branches| - 1]);
      if !SatisfiesOwnType(last) || Offered(before, ConstantOf(last)) then before
      else before + [ChoiceOf(last)]
  }

  ghost predicate Distinct(choices: seq<Choice>) {
    forall i, j | 0 <= i < j < |choices| :: !JsonEqual(choices[i].value, choices[j].value)
  }

  predicate AllScalar(choices: seq<Choice>) {
    forall i | 0 <= i < |choices| :: !IsStructured(choices[i].value)
  }

  lemma OfferedEqually(choices: seq<Choice>, v: Json, w: Json)
    requires JsonEqual(v, w)
    ensures Offered(choices, v) <==> Offered(choices, w)
  {
    EqualIsSymmetric(v, w);
    hide JsonEqual;
    forall i | 0 <= i < |choices| ensures JsonEqual(choices[i].value, v) <==> JsonEqual(choices[i].value, w) {
      if JsonEqual(choices[i].value, v) {
        EqualIsTransitive(choices[i].value, v, w);
      } else if JsonEqual(choices[i].value, w) {
        EqualIsTransitive(choices[i].value, w, v);
      }
    }
  }

  lemma OfferedWithOneMore(choices: seq<Choice>, choice: Choice, v: Json)
    ensures Offered(choices + [choice], v) <==> Offered(choices, v) || JsonEqual(choice.value, v)
  {
    hide JsonEqual;
    assert (choices + [choice])[|choices|] == choice;
    forall i | 0 <= i < |choices| ensures (choices + [choice])[i] == choices[i] {
    }
  }

  lemma DistinctWithOneMore(choices: seq<Choice>, choice: Choice)
    requires Distinct(choices) && !Offered(choices, choice.value)
    ensures Distinct(choices + [choice])
  {
    hide JsonEqual;
  }

  lemma BranchAdmitsItsConstant(branch: Json, v: Json)
    requires CauseOf(branch).None?
    ensures BranchAdmits(branch, v) <==> SatisfiesOwnType(branch) && JsonEqual(ConstantOf(branch), v)
  {
    if JsonEqual(ConstantOf(branch), v) && Member(branch, TYPE).Some? {
      EqualValuesMatchAlike(ConstantOf(branch), v, Member(branch, TYPE).value);
    }
  }

  lemma AnyOfWithOneMore(branches: seq<Json>, last: Json, v: Json)
    ensures AnyOfAdmits(branches + [last], v) <==> AnyOfAdmits(branches, v) || BranchAdmits(last, v)
  {
    hide BranchAdmits;
    assert (branches + [last])[|branches|] == last;
    forall i | 0 <= i < |branches| ensures (branches + [last])[i] == branches[i] {
    }
  }

  lemma BranchChoicesUnfold(branches: seq<Json>, last: Json)
    requires AllConstant(branches + [last])
    ensures AllConstant(branches) && CauseOf(last).None?
    ensures BranchChoices(branches + [last])
         == if !SatisfiesOwnType(last) || Offered(BranchChoices(branches), ConstantOf(last)) then BranchChoices(branches)
            else BranchChoices(branches) + [ChoiceOf(last)]
  {
    hide CauseOf;
    assert (branches + [last])[|branches|] == last && (branches + [last])[..|branches|] == branches;
    forall i | 0 <= i < |branches| ensures (branches + [last])[i] == branches[i] {
    }
  }

  lemma ChoiceHoldsConstant(branch: Json)
    requires CauseOf(branch).None?
    ensures ChoiceOf(branch).value == ConstantOf(branch)
  {
  }

  /** One more branch adds exactly what it admits, unless its constant is offered already. */
  lemma OneMoreBranchIsExact(choices: seq<Choice>, last: Json, v: Json)
    requires CauseOf(last).None? && Distinct(choices) && AllScalar(choices)
    ensures var more := if !SatisfiesOwnType(last) || Offered(choices, ConstantOf(last)) then choices
                        else choices + [ChoiceOf(last)];
            Distinct(more) && AllScalar(more) && (Offered(more, v) <==> Offered(choices, v) || BranchAdmits(last, v))
  {
    hide JsonEqual, CauseOf, BranchAdmits, Offered, Distinct, ConstantOf, SatisfiesOwnType, ChoiceOf;
    BranchAdmitsItsConstant(last, v);
    ConstantsAreScalar(last);
    OfferedWithOneMore(choices, ChoiceOf(last), v);
    ChoiceHoldsConstant(last);
    if Offered(choices, ConstantOf(last)) {
      if JsonEqual(ConstantOf(last), v) {
        OfferedEqually(choices, ConstantOf(last), v);
      }
    } else {
      DistinctWithOneMore(choices, ChoiceOf(last));
    }
  }

  /** The options of a constant choice are what its branches admit, each once. */
  lemma {:induction false} BranchChoicesAreExact(branches: seq<Json>, v: Json)
    requires AllConstant(branches)
    ensures Offered(BranchChoices(branches), v) <==> AnyOfAdmits(branches, v)
    ensures Distinct(BranchChoices(branches)) && AllScalar(BranchChoices(branches))
  {
    if branches == [] {
    } else {
      hide AllConstant, BranchChoices, CauseOf, BranchAdmits, AnyOfAdmits, Offered, Distinct, AllScalar, ChoiceOf;
      var front, last := branches[..|branches| - 1], branches[|branches| - 1];
      assert branches == front + [last];
      BranchChoicesUnfold(front, last);
      BranchChoicesAreExact(front, v);
      OneMoreBranchIsExact(BranchChoices(front), last, v);
      AnyOfWithOneMore(front, last, v);
    }
  }

  lemma ConstantsAreScalar(branch: Json)
    requires CauseOf(branch).None?
    ensures !IsStructured(ConstantOf(branch))
  {
  }

  /** With distinct constants, no value satisfies two branches. */
  lemma DistinctConstantsDecideOneOf(branches: seq<Json>, v: Json)
    requires AllConstant(branches) && DistinctConstants(branches)
    ensures OneOfAdmits(branches, v) <==> AnyOfAdmits(branches, v)
  {
    if AnyOfAdmits(branches, v) {
      var i :| 0 <= i < |branches| && BranchAdmits(branches[i], v);
      forall j | 0 <= j < |branches| && j != i ensures !BranchAdmits(branches[j], v) {
        OnlyOneBranchAdmits(branches, i, j, v);
      }
    }
  }

  lemma OnlyOneBranchAdmits(branches: seq<Json>, i: nat, j: nat, v: Json)
    requires AllConstant(branches) && DistinctConstants(branches) && i < |branches| && j < |branches| && i != j
    ensures !BranchAdmits(branches[i], v) || !BranchAdmits(branches[j], v)
  {
    BranchAdmitsItsConstant(branches[i], v);
    BranchAdmitsItsConstant(branches[j], v);
    hide JsonEqual, CauseOf, BranchAdmits, ConstantOf, SatisfiesOwnType;
    var low, high := if i < j then i else j, if i < j then j else i;
    if JsonEqual(ConstantOf(branches[low]), v) && JsonEqual(ConstantOf(branches[high]), v) {
      EqualIsSymmetric(ConstantOf(branches[high]), v);
      EqualIsTransitive(ConstantOf(branches[low]), v, ConstantOf(branches[high]));
    }
  }

  /** `recognize_constant_choice`: the options of the branches, or the first cause against them. */
  method RecognizeConstantChoice(oneOf: bool, branches: seq<Json>) returns (r: Result<seq<Choice>, Cause>)
    ensures r.Ok? <==> IsConstantChoice(oneOf, branches)
    ensures r.Ok? ==> r.value == BranchChoices(branches)
    ensures r.Err? && r.error == DuplicateConstant ==> oneOf && AllConstant(branches)
    ensures r.Err? && r.error != DuplicateConstant ==>
              exists i :: 0 <= i < |branches| && CauseOf(branches[i]) == Some(r.error) && AllConstant(branches[..i])
  {
    hide JsonEqual, CauseOf, ConstantOf, SatisfiesOwnType, ChoiceOf, Offered;
    for i := 0 to |branches|
      invariant AllConstant(branches[..i])
    {
      if CauseOf(branches[i]).Some? {
        NoOtherCause(branches[i]);
        return Err(CauseOf(branches[i]).value);
      }
      assert branches[..i + 1] == branches[..i] + [branches[i]];
    }
    assert branches[..|branches|] == branches;
    if oneOf {
      for i := 0 to |branches|
        invariant DistinctConstants(branches[..i])
      {
        if exists j | 0 <= j < i :: JsonEqual(ConstantOf(branches[j]), ConstantOf(branches[i])) {
          return Err(DuplicateConstant);
        }
        assert forall j | 0 <= j < i :: branches[..i][j] == branches[j];
      }
    }
    var choices: seq<Choice> := [];
    for i := 0 to |branches|
      invariant choices == BranchChoices(branches[..i])
    {
      assert branches[..i + 1][..i] == branches[..i];
      var branch := branches[i];
      if !SatisfiesOwnType(branch) || Offered(choices, ConstantOf(branch)) {
        continue;
      }
      choices := choices + [ChoiceOf(branch)];
    }
    return Ok(choices);
  }

  lemma NoOtherCause(branch: Json)
    requires CauseOf(branch).Some?
    ensures CauseOf(branch).value != DuplicateConstant
  {
  }

  // ------------------------------------------------------------------------- the sources

  datatype Recognition = Recognition(located: Applicable, oneOf: bool, choices: seq<Choice>)

  function KeywordLocation(located: Applicable, oneOf: bool): Bytes {
    AppendToken(located.pointer, if oneOf then ONE_OF else ANY_OF)
  }

  ghost function RecognitionsOf(applicable: seq<Applicable>, oneOf: bool): seq<Keyed<Recognition>> {
    if applicable == [] then []
    else
      var last := applicable[|applicable| - 1];
      RecognitionsOf(applicable[..|applicable| - 1], oneOf) +
      if !Recognized(last.schema, oneOf) then []
      else [Keyed((last.resource, KeywordLocation(last, oneOf)),
                  Recognition(last, oneOf, BranchChoices(Elements(last.schema, if oneOf then ONE_OF else ANY_OF).value)))]
  }

  /** The recognised constant choices in the order of their locations. */
  ghost function RecognizedSources(applicable: seq<Applicable>): seq<Keyed<Recognition>> {
    Sorted(RecognitionsOf(applicable, false) + RecognitionsOf(applicable, true))
  }

  function EnumSources(applicable: seq<Applicable>): seq<(Applicable, seq<Json>)> {
    if applicable == [] then []
    else
      var last := applicable[|applicable| - 1];
      EnumSources(applicable[..|applicable| - 1]) +
      if Elements(last.schema, ENUM).None? then [] else [(last, Elements(last.schema, ENUM).value)]
  }

  function ConstSources(applicable: seq<Applicable>): seq<(Applicable, Json)> {
    if applicable == [] then []
    else
      var last := applicable[|applicable| - 1];
      ConstSources(applicable[..|applicable| - 1]) +
      if Member(last.schema, CONST).None? then [] else [(last, Member(last.schema, CONST).value)]
  }

  /** `recognized_constant_choices`. */
  method RecognizedChoices(applicable: seq<Applicable>) returns (sorted: seq<Keyed<Recognition>>)
    ensures sorted == RecognizedSources(applicable)
  {
    var anyOf := CollectRecognized(applicable, false);
    var oneOf := CollectRecognized(applicable, true);
    sorted := Sorted(anyOf + oneOf);
  }

  method CollectRecognized(applicable: seq<Applicable>, oneOf: bool) returns (found: seq<Keyed<Recognition>>)
    ensures found == RecognitionsOf(applicable, oneOf)
  {
    found := [];
    for i := 0 to |applicable|
      invariant found == RecognitionsOf(applicable[..i], oneOf)
    {
      assert applicable[..i + 1][..i] == applicable[..i];
      var located := applicable[i];
      var branches := Elements(located.schema, if oneOf then ONE_OF else ANY_OF);
      if branches.Some? {
        var choices := RecognizeConstantChoice(oneOf, branches.value);
        if choices.Ok? {
          found := found + [Keyed((located.resource, KeywordLocation(located, oneOf)),
                                  Recognition(located, oneOf, choices.value))];
        }
      }
    }
    assert applicable[..|applicable|] == applicable;
  }

  // --------------------------------------------------------------------- narrowing the list

  /** What is left of the choices once only the given values are allowed. */
  ghost function Retained(choices: seq<Choice>, allowed: seq<Json>): seq<Choice> {
    if choices == [] then []
    else
      var last := choices[|choices| - 1];
      Retained(choices[..|choices| - 1], allowed) + if Among(allowed, last.value) then [last] else []
  }

  /** `retain_allowed_choices`. */
  method RetainAllowedChoices(choices: seq<Choice>, allowed: seq<Json>) returns (kept: seq<Choice>)
    ensures kept == Retained(choices, allowed)
  {
    kept := [];
    for i := 0 to |choices|
      invariant kept == Retained(choices[..i], allowed)
    {
      assert choices[..i + 1][..i] == choices[..i];
      if Among(allowed, choices[i].value) {
        kept := kept + [choices[i]];
      }
    }
    assert choices[..|choices|] == choices;
  }

  predicate TypesAdmit(applicable: seq<Applicable>, v: Json) {
    forall i | 0 <= i < |applicable| ::
      && applicable[i].schema != Bool(false)
      && (Member(applicable[i].schema, TYPE).Some? ==>
            MatchesTypeDeclaration(v, Member(applicable[i].schema, TYPE).value))
  }

  ghost function Typed(choices: seq<Choice>, applicable: seq<Applicable>): seq<Choice> {
    if choices == [] then []
    else
      var last := choices[|choices| - 1];
      Typed(choices[..|choices| - 1], applicable) + if TypesAdmit(applicable, last.value) then [last] else []
  }

  method RetainTyped(choices: seq<Choice>, applicable: seq<Applicable>) returns (kept: seq<Choice>)
    ensures kept == Typed(choices, applicable)
  {
    kept := [];
    for i := 0 to |choices|
      invariant kept == Typed(choices[..i], applicable)
    {
      assert choices[..i + 1][..i] == choices[..i];
      if TypesAdmit(applicable, choices[i].value) {
        kept := kept + [choices[i]];
      }
    }
    assert choices[..|choices|] == choices;
  }

  /** The first of every group of equal choices. */
  ghost function Unique(choices: seq<Choice>): seq<Choice> {
    if choices == [] then []
    else
      var before, last := Unique(choices[..|choices| - 1]), choices[|choices| - 1];
      if Offered(before, last.value) then before else before + [last]
  }

  method DropDuplicates(choices: seq<Choice>) returns (unique: seq<Choice>)
    ensures unique == Unique(choices)
  {
    unique := [];
    for i := 0 to |choices|
      invariant unique == Unique(choices[..i])
    {
      assert choices[..i + 1][..i] == choices[..i];
      if !Offered(unique, choices[i].value) {
        unique := unique + [choices[i]];
      }
    }
    assert choices[..|choices|] == choices;
  }

  // ------------------------------------------------------------ what narrowing leaves on offer

  lemma AmongEqually(values: seq<Json>, v: Json, w: Json)
    requires JsonEqual(v, w)
    ensures Among(values, v) <==> Among(values, w)
  {
    EqualIsSymmetric(v, w);
    hide JsonEqual;
    forall i | 0 <= i < |values| ensures JsonEqual(values[i], v) <==> JsonEqual(values[i], w) {
      if JsonEqual(values[i], v) {
        EqualIsTransitive(values[i], v, w);
      } else if JsonEqual(values[i], w) {
        EqualIsTransitive(values[i], w, v);
      }
    }
  }

  lemma {:induction false} RetainedOffers(choices: seq<Choice>, allowed: seq<Json>, v: Json)
    ensures Offered(Retained(choices, allowed), v) <==> Offered(choices, v) && Among(allowed, v)
  {
    if choices != [] {
      hide JsonEqual, Among, Offered;
      var front, last := choices[..|choices| - 1], choices[|choices| - 1];
      RetainedOffers(front, allowed, v);
      assert choices == front + [last];
      OfferedWithOneMore(front, last, v);
      OfferedWithOneMore(Retained(front, allowed), last, v);
      if JsonEqual(last.value, v) {
        AmongEqually(allowed, last.value, v);
      }
      assert Retained(front, allowed) + [] == Retained(front, allowed);
    }
  }

  lemma TypesAdmitEqually(applicable: seq<Applicable>, v: Json, w: Json)
    requires JsonEqual(v, w)
    ensures TypesAdmit(applicable, v) <==> TypesAdmit(applicable, w)
  {
    hide JsonEqual, MatchesTypeDeclaration, Member;
    forall declared: Json ensures MatchesTypeDeclaration(v, declared) <==> MatchesTypeDeclaration(w, declared) {
      EqualValuesMatchAlike(v, w, declared);
    }
  }

  lemma {:induction false} TypedOffers(choices: seq<Choice>, applicable: seq<Applicable>, v: Json)
    ensures Offered(Typed(choices, applicable), v) <==> Offered(choices, v) && TypesAdmit(applicable, v)
  {
    if choices != [] {
      hide TypesAdmit, JsonEqual, Offered;
      var front, last := choices[..|choices| - 1], choices[|choices| - 1];
      TypedOffers(front, applicable, v);
      assert choices == front + [last];
      OfferedWithOneMore(front, last, v);
      OfferedWithOneMore(Typed(front, applicable), last, v);
      if JsonEqual(last.value, v) {
        TypesAdmitEqually(applicable, last.value, v);
      }
      assert Typed(front, applicable) + [] == Typed(front, applicable);
    }
  }

  lemma {:induction false} UniqueOffers(choices: seq<Choice>, v: Json)
    ensures Offered(Unique(choices), v) <==> Offered(choices, v)
    ensures Distinct(Unique(choices))
  {
    if choices != [] {
      hide JsonEqual, Distinct;
      var front, last := choices[..|choices| - 1], choices[|choices| - 1];
      UniqueOffers(front, v);
      assert choices == front + [last];
      OfferedWithOneMore(front, last, v);
      OfferedWithOneMore(Unique(front), last, v);
      if Offered(Unique(front), last.value) {
        if JsonEqual(last.value, v) {
          OfferedEqually(Unique(front), last.value, v);
        }
      } else {
        DistinctWithOneMore(Unique(front), last);
      }
    } else {
      assert Distinct(Unique(choices));
    }
  }

  // ------------------------------------------------------------------- order and uniqueness

  /** The kept choices are among the others, in the same order. */
  ghost predicate Subsequence(kept: seq<Choice>, from: seq<Choice>)
    decreases |from|
  {
    kept == [] ||
    (from != [] && (Subsequence(kept, from[..|from| - 1]) ||
                    (kept[|kept| - 1] == from[|from| - 1] && Subsequence(kept[..|kept| - 1], from[..|from| - 1]))))
  }

  lemma SubsequenceGrows(kept: seq<Choice>, from: seq<Choice>, x: Choice)
    requires Subsequence(kept, from)
    ensures Subsequence(kept, from + [x]) && Subsequence(kept + [x], from + [x])
  {
    assert (from + [x])[..|from|] == from && (kept + [x])[..|kept|] == kept;
  }

  lemma {:induction false} SubsequenceIsTransitive(a: seq<Choice>, b: seq<Choice>, c: seq<Choice>)
    requires Subsequence(a, b) && Subsequence(b, c)
    ensures Subsequence(a, c)
    decreases |b| + |c|
  {
    if a != [] && b != [] {
      var shorter, front := b[..|b| - 1], c[..|c| - 1];
      if Subsequence(b, front) {
        SubsequenceIsTransitive(a, b, front);
      } else if Subsequence(a, shorter) {
        SubsequenceIsTransitive(a, shorter, front);
      } else {
        SubsequenceIsTransitive(a[..|a| - 1], shorter, front);
      }
    }
  }

  lemma {:induction false} SubsequenceElements(kept: seq<Choice>, from: seq<Choice>)
    requires Subsequence(kept, from)
    ensures forall choice | choice in kept :: choice in from
    decreases |from|
  {
    if kept != [] {
      var front := from[..|from| - 1];
      if Subsequence(kept, front) {
        SubsequenceElements(kept, front);
      } else {
        SubsequenceElements(kept[..|kept| - 1], front);
        assert kept == kept[..|kept| - 1] + [kept[|kept| - 1]];
      }
    }
  }

  lemma {:induction false} NarrowingKeepsOrder(choices: seq<Choice>, allowed: seq<Json>, applicable: seq<Applicable>)
    ensures Subsequence(Retained(choices, allowed), choices)
    ensures Subsequence(Typed(choices, applicable), choices)
    ensures Subsequence(Unique(choices), choices)
  {
    if choices != [] {
      hide Among, Offered, TypesAdmit, Subsequence;
      var front, last := choices[..|choices| - 1], choices[|choices| - 1];
      NarrowingKeepsOrder(front, allowed, applicable);
      assert choices == front + [last];
      SubsequenceGrows(Retained(front, allowed), front, last);
      SubsequenceGrows(Typed(front, applicable), front, last);
      SubsequenceGrows(Unique(front), front, last);
      assert Retained(front, allowed) + [] == Retained(front, allowed);
      assert Typed(front, applicable) + [] == Typed(front, applicable);
    } else {
      assert Subsequence([], choices);
    }
  }

  // ------------------------------------------------------------- which of several equal options stays

  /** The option is in the list, and nothing before it is equal to it. */
  ghost predicate FirstOf(choices: seq<Choice>, x: Choice) {
    exists i :: 0 <= i < |choices| && choices[i] == x && forall j | 0 <= j < i :: !JsonEqual(choices[j].value, x.value)
  }

  lemma FirstOneMore(choices: seq<Choice>, last: Choice, x: Choice)
    ensures FirstOf(choices + [last], x) <==> FirstOf(choices, x) || (x == last && !Offered(choices, x.value))
  {
    hide JsonEqual;
    var more := choices + [last];
    assert more[|choices|] == last;
    assert forall j | 0 <= j < |choices| :: more[j] == choices[j];
    if FirstOf(choices, x) {
      var i :| 0 <= i < |choices| && choices[i] == x && forall j | 0 <= j < i :: !JsonEqual(choices[j].value, x.value);
      assert more[i] == x;
    }
  }

  lemma {:induction false} RetainedFirst(choices: seq<Choice>, allowed: seq<Json>, x: Choice)
    requires FirstOf(Retained(choices, allowed), x)
    ensures FirstOf(choices, x)
    decreases |choices|
  {
    if choices != [] {
      hide JsonEqual, Among, Offered, FirstOf;
      var front, last := choices[..|choices| - 1], choices[|choices| - 1];
      assert choices == front + [last];
      FirstOneMore(front, last, x);
      FirstOneMore(Retained(front, allowed), last, x);
      RetainedOffers(front, allowed, x.value);
      assert Retained(front, allowed) + [] == Retained(front, allowed);
      if FirstOf(Retained(front, allowed), x) {
        RetainedFirst(front, allowed, x);
      }
    }
  }

  lemma {:induction false} TypedFirst(choices: seq<Choice>, applicable: seq<Applicable>, x: Choice)
    requires FirstOf(Typed(choices, applicable), x)
    ensures FirstOf(choices, x)
    decreases |choices|
  {
    if choices != [] {
      hide JsonEqual, TypesAdmit, Offered, FirstOf;
      var front, last := choices[..|choices| - 1], choices[|choices| - 1];
      assert choices == front + [last];
      FirstOneMore(front, last, x);
      FirstOneMore(Typed(front, applicable), last, x);
      TypedOffers(front, applicable, x.value);
      assert Typed(front, applicable) + [] == Typed(front, applicable);
      if FirstOf(Typed(front, applicable), x) {
        TypedFirst(front, applicable, x);
      }
    }
  }

  /** Of several equal options the first one stays. */
  lemma {:induction false} UniqueFirst(choices: seq<Choice>, x: Choice)
    requires x in Unique(choices)
    ensures FirstOf(choices, x)
    decreases |choices|
  {
    if choices != [] {
      hide JsonEqual, Offered, FirstOf;
      var front, last := choices[..|choices| - 1], choices[|choices| - 1];
      assert choices == front + [last];
      FirstOneMore(front, last, x);
      UniqueOffers(front, x.value);
      if x in Unique(front) {
        UniqueFirst(front, x);
      }
    }
  }

  // ------------------------------------------------------------------- narrowing by all sources

  ghost predicate AllAmong(lists: seq<seq<Json>>, v: Json) {
    forall i | 0 <= i < |lists| :: Among(lists[i], v)
  }

  ghost function Narrowed(choices: seq<Choice>, lists: seq<seq<Json>>): seq<Choice> {
    if lists == [] then choices else Retained(Narrowed(choices, lists[..|lists| - 1]), lists[|lists| - 1])
  }

  method Narrow(choices: seq<Choice>, lists: seq<seq<Json>>) returns (kept: seq<Choice>)
    ensures kept == Narrowed(choices, lists)
  {
    kept := choices;
    for i := 0 to |lists|
      invariant kept == Narrowed(choices, lists[..i])
    {
      assert lists[..i + 1][..i] == lists[..i];
      kept := RetainAllowedChoices(kept, lists[i]);
    }
    assert lists[..|lists|] == lists;
  }

  lemma {:induction false} NarrowedOffers(choices: seq<Choice>, lists: seq<seq<Json>>, v: Json)
    ensures Offered(Narrowed(choices, lists), v) <==> Offered(choices, v) && AllAmong(lists, v)
    decreases |lists|
  {
    if lists != [] {
      hide Among, Offered;
      var front, last := lists[..|lists| - 1], lists[|lists| - 1];
      NarrowedOffers(choices, front, v);
      RetainedOffers(Narrowed(choices, front), last, v);
      assert lists == front + [last];
      ListsGrow(front, last, v);
    }
  }

  lemma {:induction false} NarrowedKeepsOrder(choices: seq<Choice>, lists: seq<seq<Json>>)
    ensures Subsequence(Narrowed(choices, lists), choices)
    decreases |lists|
  {
    if lists == [] {
      SubsequenceOfItself(choices);
    } else {
      var before := Narrowed(choices, lists[..|lists| - 1]);
      NarrowedKeepsOrder(choices, lists[..|lists| - 1]);
      NarrowingKeepsOrder(before, lists[|lists| - 1], []);
      SubsequenceIsTransitive(Narrowed(choices, lists), before, choices);
    }
  }

  lemma {:induction false} NarrowedFirst(choices: seq<Choice>, lists: seq<seq<Json>>, x: Choice)
    requires FirstOf(Narrowed(choices, lists), x)
    ensures FirstOf(choices, x)
    decreases |lists|
  {
    if lists != [] {
      hide FirstOf, Retained;
      var front := lists[..|lists| - 1];
      RetainedFirst(Narrowed(choices, front), lists[|lists| - 1], x);
      NarrowedFirst(choices, front, x);
    }
  }

  lemma {:induction false} SubsequenceOfItself(choices: seq<Choice>)
    ensures Subsequence(choices, choices)
  {
    if choices != [] {
      SubsequenceOfItself(choices[..|choices| - 1]);
    }
  }

  function ValuesOf(choices: seq<Choice>): (values: seq<Json>)
    ensures |values| == |choices| && forall i | 0 <= i < |choices| :: values[i] == choices[i].value
  {
    seq(|choices|, i requires 0 <= i < |choices| => choices[i].value)
  }

  function ChoiceLists(sources: seq<Keyed<Recognition>>): (lists: seq<seq<Json>>)
    ensures |lists| == |sources| && forall i | 0 <= i < |lists| :: lists[i] == ValuesOf(sources[i].item.choices)
  {
    seq(|sources|, i requires 0 <= i < |sources| => ValuesOf(sources[i].item.choices))
  }

  function EnumLists(sources: seq<(Applicable, seq<Json>)>): (lists: seq<seq<Json>>)
    ensures |lists| == |sources| && forall i | 0 <= i < |lists| :: lists[i] == sources[i].1
  {
    seq(|sources|, i requires 0 <= i < |sources| => sources[i].1)
  }

  function ConstLists(sources: seq<(Applicable, Json)>): (lists: seq<seq<Json>>)
    ensures |lists| == |sources| && forall i | 0 <= i < |lists| :: lists[i] == [sources[i].1]
  {
    seq(|sources|, i requires 0 <= i < |sources| => [sources[i].1])
  }

  ghost predicate EnumAdmits(schema: Json, v: Json) {
    Elements(schema, ENUM).Some? ==> Among(Elements(schema, ENUM).value, v)
  }

  lemma {:induction false} EnumsAdmit(applicable: seq<Applicable>, v: Json)
    ensures AllAmong(EnumLists(EnumSources(applicable)), v)
       <==> forall i | 0 <= i < |applicable| :: EnumAdmits(applicable[i].schema, v)
    ensures forall source | source in EnumSources(applicable) :: source.0 in applicable
  {
    if applicable != [] {
      var front, last := applicable[..|applicable| - 1], applicable[|applicable| - 1];
      assert applicable == front + [last];
      EnumsAdmit(front, v);
      EnumSourcesUnfold(front, last, v);
      hide EnumAdmits, EnumSources, AllAmong, EnumLists;
      assert forall i | 0 <= i < |front| :: applicable[i] == front[i];
    }
  }

  lemma EnumSourcesUnfold(applicable: seq<Applicable>, last: Applicable, v: Json)
    ensures AllAmong(EnumLists(EnumSources(applicable + [last])), v)
       <==> AllAmong(EnumLists(EnumSources(applicable)), v) && EnumAdmits(last.schema, v)
    ensures forall source | source in EnumSources(applicable + [last]) :: source in EnumSources(applicable) || source.0 == last
  {
    hide Among, Elements;
    assert (applicable + [last])[..|applicable|] == applicable;
    var before := EnumLists(EnumSources(applicable));
    if Elements(last.schema, ENUM).Some? {
      ListsGrow(before, Elements(last.schema, ENUM).value, v);
      assert EnumLists(EnumSources(applicable + [last])) == before + [Elements(last.schema, ENUM).value];
    } else {
      assert EnumSources(applicable + [last]) == EnumSources(applicable);
    }
  }

  lemma ListsGrow(lists: seq<seq<Json>>, list: seq<Json>, v: Json)
    ensures AllAmong(lists + [list], v) <==> AllAmong(lists, v) && Among(list, v)
  {
    hide Among;
    assert (lists + [list])[|lists|] == list;
    assert forall i | 0 <= i < |lists| :: (lists + [list])[i] == lists[i];
  }

  ghost predicate ConstAdmits(schema: Json, v: Json) {
    Member(schema, CONST).Some? ==> JsonEqual(Member(schema, CONST).value, v)
  }

  lemma {:induction false} ConstsAdmit(applicable: seq<Applicable>, v: Json)
    ensures AllAmong(ConstLists(ConstSources(applicable)), v)
       <==> forall i | 0 <= i < |applicable| :: ConstAdmits(applicable[i].schema, v)
    ensures forall source | source in ConstSources(applicable) ::
              source.0 in applicable && Member(source.0.schema, CONST) == Some(source.1)
  {
    if applicable != [] {
      var front, last := applicable[..|applicable| - 1], applicable[|applicable| - 1];
      assert applicable == front + [last];
      ConstsAdmit(front, v);
      ConstSourcesUnfold(front, last, v);
      hide ConstAdmits, ConstSources, AllAmong, ConstLists, Member;
      assert forall i | 0 <= i < |front| :: applicable[i] == front[i];
    }
  }

  lemma ConstSourcesUnfold(applicable: seq<Applicable>, last: Applicable, v: Json)
    ensures AllAmong(ConstLists(ConstSources(applicable + [last])), v)
       <==> AllAmong(ConstLists(ConstSources(applicable)), v) && ConstAdmits(last.schema, v)
    ensures forall source | source in ConstSources(applicable + [last]) ::
              source in ConstSources(applicable) || (source.0 == last && Member(last.schema, CONST) == Some(source.1))
  {
    hide Among, Member, JsonEqual;
    assert (applicable + [last])[..|applicable|] == applicable;
    var before := ConstLists(ConstSources(applicable));
    if Member(last.schema, CONST).Some? {
      var constant := Member(last.schema, CONST).value;
      ListsGrow(before, [constant], v);
      AmongOne(constant, v);
      assert ConstLists(ConstSources(applicable + [last])) == before + [[constant]];
    } else {
      assert ConstSources(applicable + [last]) == ConstSources(applicable);
    }
  }

  lemma AmongOne(value: Json, v: Json)
    ensures Among([value], v) <==> JsonEqual(value, v)
  {
    hide JsonEqual;
    assert [value][0] == value;
  }

  ghost predicate RecognitionsOffer(sources: seq<Keyed<Recognition>>, v: Json) {
    forall source | source in sources :: Offered(source.item.choices, v)
  }

  ghost predicate RecognizedAdmits(schema: Json, oneOf: bool, v: Json) {
    Recognized(schema, oneOf) ==>
      if oneOf then OneOfAdmits(Elements(schema, ONE_OF).value, v) else AnyOfAdmits(Elements(schema, ANY_OF).value, v)
  }

  lemma RecognizedIsExact(schema: Json, oneOf: bool, v: Json)
    requires Recognized(schema, oneOf)
    ensures Offered(BranchChoices(Elements(schema, if oneOf then ONE_OF else ANY_OF).value), v)
       <==> RecognizedAdmits(schema, oneOf, v)
  {
    var branches := Elements(schema, if oneOf then ONE_OF else ANY_OF).value;
    BranchChoicesAreExact(branches, v);
    if oneOf {
      DistinctConstantsDecideOneOf(branches, v);
    }
  }

  lemma RecognitionsGrow(sources: seq<Keyed<Recognition>>, source: Keyed<Recognition>, v: Json)
    ensures RecognitionsOffer(sources + [source], v) <==> RecognitionsOffer(sources, v) && Offered(source.item.choices, v)
  {
    hide Offered;
    assert source in sources + [source];
    assert forall s | s in sources :: s in sources + [source];
  }

  lemma RecognitionsUnfold(applicable: seq<Applicable>, last: Applicable, oneOf: bool)
    ensures RecognitionsOf(applicable + [last], oneOf)
         == RecognitionsOf(applicable, oneOf) +
            if !Recognized(last.schema, oneOf) then []
            else [Keyed((last.resource, KeywordLocation(last, oneOf)),
                        Recognition(last, oneOf, BranchChoices(Elements(last.schema, if oneOf then ONE_OF else ANY_OF).value)))]
  {
    assert (applicable + [last])[..|applicable|] == applicable;
  }

  ghost predicate AllRecognizedAdmit(applicable: seq<Applicable>, oneOf: bool, v: Json) {
    forall i | 0 <= i < |applicable| :: RecognizedAdmits(applicable[i].schema, oneOf, v)
  }

  lemma OneMoreAdmits(applicable: seq<Applicable>, last: Applicable, oneOf: bool, v: Json)
    ensures AllRecognizedAdmit(applicable + [last], oneOf, v)
       <==> AllRecognizedAdmit(applicable, oneOf, v) && RecognizedAdmits(last.schema, oneOf, v)
  {
    hide RecognizedAdmits;
    assert (applicable + [last])[|applicable|] == last;
    forall i | 0 <= i < |applicable| ensures (applicable + [last])[i] == applicable[i] {
    }
  }

  lemma {:induction false} RecognitionsAdmit(applicable: seq<Applicable>, oneOf: bool, v: Json)
    ensures RecognitionsOffer(RecognitionsOf(applicable, oneOf), v) <==> AllRecognizedAdmit(applicable, oneOf, v)
  {
    if applicable != [] {
      var front, last := applicable[..|applicable| - 1], applicable[|applicable| - 1];
      assert applicable == front + [last];
      RecognitionsAdmit(front, oneOf, v);
      RecognitionsUnfold(front, last, oneOf);
      OneMoreAdmits(front, last, oneOf, v);
      if Recognized(last.schema, oneOf) {
        RecognizedIsExact(last.schema, oneOf, v);
        hide Recognized, RecognizedAdmits, BranchChoices, Offered, Elements, RecognitionsOffer, RecognitionsOf, AllRecognizedAdmit;
        var choices := BranchChoices(Elements(last.schema, if oneOf then ONE_OF else ANY_OF).value);
        RecognitionsGrow(RecognitionsOf(front, oneOf),
                         Keyed((last.resource, KeywordLocation(last, oneOf)), Recognition(last, oneOf, choices)), v);
      } else {
        var none: seq<Keyed<Recognition>> := [];
        assert RecognitionsOf(front, oneOf) + none == RecognitionsOf(front, oneOf);
      }
    }
  }

  ghost predicate SoundSource(applicable: seq<Applicable>, source: Keyed<Recognition>) {
    && source.item.located in applicable && Distinct(source.item.choices) && AllScalar(source.item.choices)
  }

  lemma {:induction false} RecognitionsAreSound(applicable: seq<Applicable>, oneOf: bool)
    ensures forall source | source in RecognitionsOf(applicable, oneOf) :: SoundSource(applicable, source)
  {
    if applicable != [] {
      var front, last := applicable[..|applicable| - 1], applicable[|applicable| - 1];
      RecognitionsAreSound(front, oneOf);
      if Recognized(last.schema, oneOf) {
        BranchChoicesAreExact(Elements(last.schema, if oneOf then ONE_OF else ANY_OF).value, Null);
      }
      hide Recognized, BranchChoices, Distinct, AllScalar, Elements;
    }
  }

  /** All recognised sources together, in whatever order, offer what the recognised applicators admit. */
  lemma RecognizedSourcesAdmit(applicable: seq<Applicable>, v: Json)
    ensures RecognitionsOffer(RecognizedSources(applicable), v)
       <==> forall i | 0 <= i < |applicable| ::
              RecognizedAdmits(applicable[i].schema, false, v) && RecognizedAdmits(applicable[i].schema, true, v)
    ensures forall source | source in RecognizedSources(applicable) :: SoundSource(applicable, source)
  {
    hide RecognizedAdmits, SoundSource, RecognitionsOf, Offered;
    var anyOf, oneOf := RecognitionsOf(applicable, false), RecognitionsOf(applicable, true);
    RecognitionsAdmit(applicable, false, v);
    RecognitionsAdmit(applicable, true, v);
    RecognitionsAreSound(applicable, false);
    RecognitionsAreSound(applicable, true);
    SortedIsOrdered(anyOf + oneOf);
    forall source ensures source in RecognizedSources(applicable) <==> source in anyOf || source in oneOf {
      assert source in RecognizedSources(applicable) <==> source in multiset(RecognizedSources(applicable));
      assert source in anyOf + oneOf <==> source in multiset(anyOf + oneOf);
    }
  }
}
