/** Where the options of a control come from: which branch gives its value and its annotations, and which schema is first
to offer or to blame. */
module ChoiceOrigins {
  import opened Bytes
  import opened Json
  import opened PointerText
  import opened StableSort
  import opened Choices
  import opened ScalarOptions

  // ------------------------------------------------------------------------ reading a branch

  /** A text member of a schema. */
  ghost function TextAt(schema: Json, name: Bytes): Option<Bytes> {
    match Member(schema, name)
    case Some(String(text)) => Some(text)
    case _ => None
  }

  /** The branch offers the value: its constant equals it, and its own type, if it has one, admits the constant. */
  ghost predicate Offers(branch: Json, v: Json) {
    && Member(branch, CONST).Some? && JsonEqual(Member(branch, CONST).value, v)
    && (Member(branch, TYPE).Some? ==> MatchesTypeDeclaration(Member(branch, CONST).value, Member(branch, TYPE).value))
  }

  /** The option is what the branch at this place says, and no branch before it offers the same. */
  ghost predicate ComesFrom(branches: seq<Json>, i: nat, option: Choice) {
    && i < |branches| && Offers(branches[i], option.value)
    && (forall j | 0 <= j < i :: !Offers(branches[j], option.value))
    && Member(branches[i], CONST) == Some(option.value)
    && option.title == TextAt(branches[i], TITLE) && option.description == TextAt(branches[i], DESCRIPTION)
  }

  lemma OfferingIsAdmitting(branch: Json, v: Json)
    requires CauseOf(branch).None?
    ensures Offers(branch, v) <==> SatisfiesOwnType(branch) && JsonEqual(ConstantOf(branch), v)
  {
    hide MatchesTypeDeclaration, JsonEqual;
  }

  lemma BranchIsRead(branch: Json)
    requires CauseOf(branch).None?
    ensures Member(branch, CONST) == Some(ConstantOf(branch)) && ChoiceOf(branch).value == ConstantOf(branch)
    ensures ChoiceOf(branch).title == TextAt(branch, TITLE)
    ensures ChoiceOf(branch).description == TextAt(branch, DESCRIPTION)
  {
  }

  /** What was offered before is offered by an option already. */
  lemma EarlierOffers(branches: seq<Json>, v: Json)
    requires AllConstant(branches)
    ensures Offered(BranchChoices(branches), v) <==> exists j :: 0 <= j < |branches| && Offers(branches[j], v)
  {
    hide BranchChoices, Offered, Offers, BranchAdmits, CauseOf, JsonEqual, Distinct, AllScalar;
    BranchChoicesAreExact(branches, v);
    forall j | 0 <= j < |branches| ensures BranchAdmits(branches[j], v) <==> Offers(branches[j], v) {
      BranchAdmitsItsConstant(branches[j], v);
      OfferingIsAdmitting(branches[j], v);
    }
  }

  lemma SameOriginInFront(branches: seq<Json>, last: Json, i: nat, option: Choice)
    requires ComesFrom(branches, i, option)
    ensures ComesFrom(branches + [last], i, option)
  {
    hide Offers;
    assert forall j | 0 <= j <= i :: (branches + [last])[j] == branches[j];
  }

  lemma NewOrigin(branches: seq<Json>, last: Json)
    requires AllConstant(branches) && CauseOf(last).None? && SatisfiesOwnType(last)
    requires !Offered(BranchChoices(branches), ConstantOf(last))
    ensures ComesFrom(branches + [last], |branches|, ChoiceOf(last))
  {
    BranchIsRead(last);
    EarlierOffers(branches, ConstantOf(last));
    EqualToItself(ConstantOf(last));
    OfferingIsAdmitting(last, ConstantOf(last));
    hide Offers, CauseOf, Offered, BranchChoices, ChoiceOf, JsonEqual, ConstantOf, Member, TextAt, SatisfiesOwnType;
    assert (branches + [last])[|branches|] == last;
    forall j | 0 <= j < |branches| ensures (branches + [last])[j] == branches[j] {
    }
  }

  /** The options of a recognised choice come from its branches, in their order: each has the value, the title and the
  description of the first branch that offers it. */
  lemma {:induction false} OptionsComeFromBranches(branches: seq<Json>) returns (from: seq<nat>)
    requires AllConstant(branches)
    ensures OptionsComeFrom(branches, BranchChoices(branches), from)
    decreases |branches|
  {
    hide *;
    if branches == [] {
      from := [];
      NoBranchesNoOptions();
    } else {
      var front, last := branches[..|branches| - 1], branches[|branches| - 1];
      assert branches == front + [last];
      BranchChoicesUnfold(front, last);
      var before := OptionsComeFromBranches(front);
      OriginsInFront(front, last, BranchChoices(front), before);
      if !SatisfiesOwnType(last) || Offered(BranchChoices(front), ConstantOf(last)) {
        from := before;
      } else {
        NewOrigin(front, last);
        from := before + [|front|];
        OneMoreOrigin(branches, BranchChoices(front), before, ChoiceOf(last));
      }
    }
  }

  /** Each option comes from a branch, later options from later branches. */
  ghost predicate OptionsComeFrom(branches: seq<Json>, options: seq<Choice>, from: seq<nat>) {
    && |from| == |options| && (forall a, b | 0 <= a < b < |from| :: from[a] < from[b])
    && forall a | 0 <= a < |from| :: ComesFrom(branches, from[a], options[a])
  }

  lemma NoBranchesNoOptions()
    ensures AllConstant([]) && OptionsComeFrom([], BranchChoices([]), [])
  {
  }

  lemma OriginsInFront(branches: seq<Json>, last: Json, options: seq<Choice>, from: seq<nat>)
    requires OptionsComeFrom(branches, options, from)
    ensures OptionsComeFrom(branches + [last], options, from)
    ensures forall a | 0 <= a < |from| :: from[a] < |branches|
  {
    assert forall a | 0 <= a < |from| :: ComesFrom(branches, from[a], options[a]) ==> from[a] < |branches|;
    hide ComesFrom;
    forall a | 0 <= a < |from| ensures ComesFrom(branches + [last], from[a], options[a]) {
      SameOriginInFront(branches, last, from[a], options[a]);
    }
  }

  lemma OneMoreOrigin(branches: seq<Json>, options: seq<Choice>, from: seq<nat>, more: Choice)
    requires branches != [] && OptionsComeFrom(branches, options, from)
    requires forall a | 0 <= a < |from| :: from[a] < |branches| - 1
    requires ComesFrom(branches, |branches| - 1, more)
    ensures OptionsComeFrom(branches, options + [more], from + [|branches| - 1])
  {
    hide ComesFrom;
  }

  // --------------------------------------------------------------------- which branch disqualifies

  /** What a branch may carry besides keywords that no vocabulary knows. */
  ghost predicate MayCarry(name: Bytes) {
    || name == CONST || name == TYPE || name == TITLE || name == DESCRIPTION
    || name == Ascii("$comment") || name == Ascii("deprecated") || name == Ascii("examples")
    || !Lists(DialectKeywords(), name)
  }

  lemma CarriedMeansListed(name: Bytes)
    ensures Lists(BranchKeywords(), name) <==>
            || name == CONST || name == TYPE || name == TITLE || name == DESCRIPTION
            || name == Ascii("$comment") || name == Ascii("deprecated") || name == Ascii("examples")
  {
    var keywords := BranchKeywords();
    assert keywords[0] == "const" && keywords[1] == "type" && keywords[2] == "title" && keywords[3] == "description";
    assert keywords[4] == "$comment" && keywords[5] == "deprecated" && keywords[6] == "examples" && |keywords| == 7;
    SpelledAlike(name, "const");
    SpelledAlike(name, "type");
    SpelledAlike(name, "title");
    SpelledAlike(name, "description");
    SpelledAlike(name, "$comment");
    SpelledAlike(name, "deprecated");
    SpelledAlike(name, "examples");
  }

  ghost predicate Spells(keyword: string, name: Bytes) {
    |name| == |keyword| && forall j | 0 <= j < |name| :: name[j] == keyword[j] as int
  }

  lemma SpelledAlike(name: Bytes, keyword: string)
    requires forall i | 0 <= i < |keyword| :: keyword[i] as int < 128
    ensures Spells(keyword, name) <==> name == Ascii(keyword)
  {
  }

  /** A branch is fit for a constant choice exactly when it is an object with a scalar constant that asserts nothing more
  than a type; a boolean is told apart from every other misfit. */
  lemma WhichBranchesFit(branch: Json)
    ensures CauseOf(branch).None? <==>
            && branch.Object? && Member(branch, CONST).Some?
            && !Member(branch, CONST).value.Array? && !Member(branch, CONST).value.Object?
            && forall name | name in branch.members :: MayCarry(name)
    ensures CauseOf(branch) == Some(BooleanBranch) <==> branch.Bool?
    ensures CauseOf(branch) != Some(DuplicateConstant)
  {
    hide Lists, DialectKeywords, BranchKeywords;
    if branch.Object? {
      forall name | name in branch.members
        ensures MayCarry(name) <==> Lists(BranchKeywords(), name) || !Lists(DialectKeywords(), name)
      {
        CarriedMeansListed(name);
      }
    }
  }

  // ---------------------------------------------------------------------- which source is first

  const SLASH_ONE_OF: Bytes := Ascii("/oneOf")
  const SLASH_ANY_OF: Bytes := Ascii("/anyOf")

  /** The place of an applicator: its resource, and the pointer of its keyword. */
  ghost function PlaceOf(located: Applicable, oneOf: bool): (Bytes, Bytes) {
    (located.resource, located.pointer + (if oneOf then SLASH_ONE_OF else SLASH_ANY_OF))
  }

  lemma {:induction false} NothingToReplace(text: Bytes, b: Byte, with: Bytes)
    requires b !in text
    ensures ReplaceByte(text, b, with) == text
  {
    if text != [] {
      NothingToReplace(text[1..], b, with);
      assert text == [text[0]] + text[1..];
    }
  }

  lemma KeywordIsAppended(located: Applicable, oneOf: bool)
    ensures (located.resource, KeywordLocation(located, oneOf)) == PlaceOf(located, oneOf)
  {
    var keyword := if oneOf then ONE_OF else ANY_OF;
    assert TILDE !in keyword && SLASH !in keyword;
    NothingToReplace(keyword, TILDE, [TILDE, ZERO]);
    NothingToReplace(keyword, SLASH, [TILDE, ZERO + 1]);
    assert [SLASH] + ONE_OF == SLASH_ONE_OF && [SLASH] + ANY_OF == SLASH_ANY_OF;
  }

  /** The schema has the applicator, and all of its branches make it a constant choice. */
  ghost predicate HasChoice(located: Applicable, oneOf: bool, branches: seq<Json>) {
    && Member(located.schema, if oneOf then ONE_OF else ANY_OF) == Some(Array(branches))
    && IsConstantChoice(oneOf, branches)
  }

  lemma HavingIsRecognizing(located: Applicable, oneOf: bool)
    ensures Recognized(located.schema, oneOf) <==> exists branches :: HasChoice(located, oneOf, branches)
    ensures forall branches :: HasChoice(located, oneOf, branches) <==>
              Recognized(located.schema, oneOf) && branches == Elements(located.schema, if oneOf then ONE_OF else ANY_OF).value
  {
    hide IsConstantChoice;
    if Recognized(located.schema, oneOf) {
      assert HasChoice(located, oneOf, Elements(located.schema, if oneOf then ONE_OF else ANY_OF).value);
    }
  }

  ghost predicate IsRecognition(applicable: seq<Applicable>, source: Keyed<Recognition>) {
    var Recognition(located, oneOf, choices) := source.item;
    && located in applicable && source.key == PlaceOf(located, oneOf)
    && exists branches :: HasChoice(located, oneOf, branches) && AllConstant(branches) && choices == BranchChoices(branches)
  }

  lemma {:induction false} RecognitionsAreFound(applicable: seq<Applicable>, oneOf: bool)
    ensures forall source | source in RecognitionsOf(applicable, oneOf) ::
              IsRecognition(applicable, source) && source.item.oneOf == oneOf
    ensures forall located, branches | located in applicable && HasChoice(located, oneOf, branches) ::
              exists source :: source in RecognitionsOf(applicable, oneOf) && source.item.located == located
                            && source.item.oneOf == oneOf && source.key == PlaceOf(located, oneOf)
    decreases |applicable|
  {
    hide RecognitionsOf, HasChoice, KeywordLocation, PlaceOf, Recognized, BranchChoices, CauseOf;
    if applicable == [] {
      NothingRecognized(applicable, oneOf);
    } else {
      var front, last := applicable[..|applicable| - 1], applicable[|applicable| - 1];
      assert applicable == front + [last];
      RecognitionsAreFound(front, oneOf);
      RecognitionsUnfold(front, last, oneOf);
      HavingIsRecognizing(last, oneOf);
      KeywordIsAppended(last, oneOf);
      if Recognized(last.schema, oneOf) {
        LastIsRecognition(applicable, last, oneOf);
      }
      forall source | source in RecognitionsOf(front, oneOf) ensures IsRecognition(applicable, source) {
        assert IsRecognition(front, source);
      }
    }
  }

  lemma LastIsRecognition(applicable: seq<Applicable>, last: Applicable, oneOf: bool)
    requires last in applicable && Recognized(last.schema, oneOf)
    ensures IsRecognition(applicable, Keyed((last.resource, KeywordLocation(last, oneOf)),
              Recognition(last, oneOf, BranchChoices(Elements(last.schema, if oneOf then ONE_OF else ANY_OF).value))))
  {
    hide BranchChoices, KeywordLocation, PlaceOf, CauseOf;
    KeywordIsAppended(last, oneOf);
    assert HasChoice(last, oneOf, Elements(last.schema, if oneOf then ONE_OF else ANY_OF).value);
  }

  lemma NothingRecognized(applicable: seq<Applicable>, oneOf: bool)
    requires applicable == []
    ensures RecognitionsOf(applicable, oneOf) == []
  {
  }

  ghost predicate PlaceBelow(left: (Bytes, Bytes), right: (Bytes, Bytes)) {
    Below(left.0, right.0) || (left.0 == right.0 && Below(left.1, right.1))
  }

  /** The recognised choices are those the schemas have, and the first one has the lowest place: by resource, then by the
  text of its pointer. */
  lemma SourcesAreRecognized(applicable: seq<Applicable>)
    ensures forall source | source in RecognizedSources(applicable) :: IsRecognition(applicable, source)
    ensures forall located, oneOf, branches | located in applicable && HasChoice(located, oneOf, branches) ::
              && RecognizedSources(applicable) != []
              && !PlaceBelow(PlaceOf(located, oneOf), RecognizedSources(applicable)[0].key)
  {
    var anyOf, oneOf := RecognitionsOf(applicable, false), RecognitionsOf(applicable, true);
    RecognitionsAreFound(applicable, false);
    RecognitionsAreFound(applicable, true);
    hide RecognitionsOf, IsRecognition, HasChoice, PlaceBelow;
    SortedIsOrdered(anyOf + oneOf);
    forall source ensures source in RecognizedSources(applicable) <==> source in anyOf || source in oneOf {
      assert source in RecognizedSources(applicable) <==> source in multiset(RecognizedSources(applicable));
      assert source in anyOf + oneOf <==> source in multiset(anyOf + oneOf);
    }
    forall located, which, branches | located in applicable && HasChoice(located, which, branches)
      ensures RecognizedSources(applicable) != []
      ensures !PlaceBelow(PlaceOf(located, which), RecognizedSources(applicable)[0].key)
    {
      var source: Keyed<Recognition> :| source in (if which then oneOf else anyOf) && source.item.located == located
                                        && source.item.oneOf == which && source.key == PlaceOf(located, which);
      assert source in RecognizedSources(applicable);
      LowestIsFirst(RecognizedSources(applicable), source);
    }
  }

  lemma LowestIsFirst(sources: seq<Keyed<Recognition>>, source: Keyed<Recognition>)
    requires Ordered(sources) && source in sources
    ensures !PlaceBelow(source.key, sources[0].key)
  {
    var i :| 0 <= i < |sources| && sources[i] == source;
    KeyBelowIsTotal(source.key, source.key);
    hide Below;
    assert i == 0 || !KeyBelow(sources[i].key, sources[0].key);
  }

  // ------------------------------------------------------------------------------ the other sources

  ghost predicate RisingBelow(from: seq<nat>, bound: nat) {
    && (forall a | 0 <= a < |from| :: from[a] < bound)
    && forall a, b | 0 <= a < b < |from| :: from[a] < from[b]
  }

  /** The `enum` sources are those of the schemas that have one, in their order. */
  ghost predicate EnumsFrom(applicable: seq<Applicable>, sources: seq<(Applicable, seq<Json>)>, from: seq<nat>) {
    && RisingBelow(from, |applicable|) && |from| == |sources|
    && (forall a | 0 <= a < |from| ::
          sources[a].0 == applicable[from[a]] && Member(sources[a].0.schema, ENUM) == Some(Array(sources[a].1)))
    && forall i | 0 <= i < |applicable| && Elements(applicable[i].schema, ENUM).Some? :: i in from
  }

  lemma EnumsOneMore(applicable: seq<Applicable>, sources: seq<(Applicable, seq<Json>)>, from: seq<nat>, last: Applicable)
    requires EnumsFrom(applicable, sources, from)
    ensures Elements(last.schema, ENUM).Some? ==>
              EnumsFrom(applicable + [last], sources + [(last, Elements(last.schema, ENUM).value)], from + [|applicable|])
    ensures !(Elements(last.schema, ENUM).Some?) ==> EnumsFrom(applicable + [last], sources, from)
  {
    hide Member;
    var more := applicable + [last];
    assert more[|applicable|] == last;
    forall i | 0 <= i < |more| && Elements(more[i].schema, ENUM).Some? ensures i in from + [|applicable|] {
      if i < |applicable| {
        assert i in from;
      } else {
        assert (from + [|applicable|])[|from|] == i;
      }
    }
  }

  lemma LastEnumSource(applicable: seq<Applicable>, last: Applicable)
    ensures EnumSources(applicable + [last])
         == if Elements(last.schema, ENUM).Some? then EnumSources(applicable) + [(last, Elements(last.schema, ENUM).value)]
            else EnumSources(applicable)
  {
    hide Member, Elements;
    assert (applicable + [last])[..|applicable|] == applicable;
  }

  lemma {:induction false} EnumsInOrder(applicable: seq<Applicable>) returns (from: seq<nat>)
    ensures EnumsFrom(applicable, EnumSources(applicable), from)
    decreases |applicable|
  {
    hide Member, Elements, EnumsFrom, EnumSources;
    if applicable == [] {
      NoSources(applicable);
      from := [];
    } else {
      var front, last := applicable[..|applicable| - 1], applicable[|applicable| - 1];
      LastEnumSource(front, last);
      var before := EnumsInOrder(front);
      EnumsOneMore(front, EnumSources(front), before, last);
      assert applicable == front + [last];
      from := if Elements(last.schema, ENUM).Some? then before + [|front|] else before;
    }
  }

  /** The `const` sources are those of the schemas that have one, in their order. */
  ghost predicate ConstsFrom(applicable: seq<Applicable>, sources: seq<(Applicable, Json)>, from: seq<nat>) {
    && RisingBelow(from, |applicable|) && |from| == |sources|
    && (forall a | 0 <= a < |from| ::
          sources[a].0 == applicable[from[a]] && Member(sources[a].0.schema, CONST) == Some(sources[a].1))
    && forall i | 0 <= i < |applicable| && Member(applicable[i].schema, CONST).Some? :: i in from
  }

  lemma ConstsOneMore(applicable: seq<Applicable>, sources: seq<(Applicable, Json)>, from: seq<nat>, last: Applicable)
    requires ConstsFrom(applicable, sources, from)
    ensures Member(last.schema, CONST).Some? ==>
              ConstsFrom(applicable + [last], sources + [(last, Member(last.schema, CONST).value)], from + [|applicable|])
    ensures !(Member(last.schema, CONST).Some?) ==> ConstsFrom(applicable + [last], sources, from)
  {
    hide Member;
    var more := applicable + [last];
    assert more[|applicable|] == last;
    forall i | 0 <= i < |more| && Member(more[i].schema, CONST).Some? ensures i in from + [|applicable|] {
      if i < |applicable| {
        assert i in from;
      } else {
        assert (from + [|applicable|])[|from|] == i;
      }
    }
  }

  lemma LastConstSource(applicable: seq<Applicable>, last: Applicable)
    ensures ConstSources(applicable + [last])
         == if Member(last.schema, CONST).Some? then ConstSources(applicable) + [(last, Member(last.schema, CONST).value)]
            else ConstSources(applicable)
  {
    hide Member, Elements;
    assert (applicable + [last])[..|applicable|] == applicable;
  }

  lemma NoSources(applicable: seq<Applicable>)
    requires applicable == []
    ensures EnumsFrom(applicable, EnumSources(applicable), []) && ConstsFrom(applicable, ConstSources(applicable), [])
  {
  }

  lemma {:induction false} ConstsInOrder(applicable: seq<Applicable>) returns (from: seq<nat>)
    ensures ConstsFrom(applicable, ConstSources(applicable), from)
    decreases |applicable|
  {
    hide Member, Elements, ConstsFrom, ConstSources;
    if applicable == [] {
      NoSources(applicable);
      from := [];
    } else {
      var front, last := applicable[..|applicable| - 1], applicable[|applicable| - 1];
      LastConstSource(front, last);
      var before := ConstsInOrder(front);
      ConstsOneMore(front, ConstSources(front), before, last);
      assert applicable == front + [last];
      from := if Member(last.schema, CONST).Some? then before + [|front|] else before;
    }
  }

  // --------------------------------------------------------------------- what a compiled option says

  /** Compiled from a recognised choice, every option says what the first branch that offers it says, with its title and
  its description. */
  lemma OptionsAreAnnotated(applicable: seq<Applicable>, c: ScalarChoices, option: Choice) returns (branches: seq<Json>, i: nat)
    requires ChoicesAreRight(applicable, c) && option in c.values && RecognizedSources(applicable) != []
    ensures IsRecognition(applicable, RecognizedSources(applicable)[0])
    ensures var source := RecognizedSources(applicable)[0].item;
            HasChoice(source.located, source.oneOf, branches) && ComesFrom(branches, i, option)
  {
    var source := RecognizedSources(applicable)[0];
    assert source in RecognizedSources(applicable);
    SourcesAreRecognized(applicable);
    hide Admits, Offered, HasChoice, ComesFrom, RecognizedSources, Distinct, FirstOf, CauseOf, BranchChoices;
    SubsequenceElements(c.values, source.item.choices);
    branches :| HasChoice(source.item.located, source.item.oneOf, branches) && AllConstant(branches)
                && source.item.choices == BranchChoices(branches);
    var from := OptionsComeFromBranches(branches);
    var a :| 0 <= a < |BranchChoices(branches)| && BranchChoices(branches)[a] == option;
    i := from[a];
  }

  /** Compiled from an `enum` or a `const`, an option is one of its values as it is written there, the first of several
  equal ones, and says nothing else. */
  lemma OptionsAreBare(applicable: seq<Applicable>, c: ScalarChoices, option: Choice)
    requires ChoicesAreRight(applicable, c) && option in c.values && RecognizedSources(applicable) == []
    requires HasSource(applicable)
    ensures option.title == None && option.description == None
    ensures var enums, constants := EnumSources(applicable), ConstSources(applicable);
            if enums != [] then
              exists i :: 0 <= i < |enums[0].1| && enums[0].1[i] == option.value
                       && forall j | 0 <= j < i :: !JsonEqual(enums[0].1[j], option.value)
            else constants != [] && constants[0].1 == option.value
  {
    hide Admits, Offered, RecognizedSources, EnumSources, ConstSources, Distinct, Increasing, JsonEqual;
    var seed := SeedOf([], EnumSources(applicable), ConstSources(applicable));
    var i :| 0 <= i < |seed| && seed[i] == option && forall j | 0 <= j < i :: !JsonEqual(seed[j].value, option.value);
    if EnumSources(applicable) != [] {
      assert EnumSources(applicable)[0].1[i] == option.value;
    }
  }
}
