/** When typing, setting and leaving are accepted, and the whole form they leave. */
module ControlAnswers {
  import opened Bytes
  import opened Numbers
  import opened Json
  import opened FormModel
  import opened TextInput
  import opened ArrayOperations
  import opened Toggles
  import opened ControlEdits
  import opened Effects
  import opened RowAnswers

  // ----------------------------------------------------------------- which control is addressed

  lemma {:induction false} ItemsAreSearched(list: ArrayDefinition, count: nat, from: nat, i: nat, c: nat)
    requires from <= i < count && c < |list.controls|
    ensures FindInItems(list, count, from, ItemPointer(list.binding, i) + list.controls[c].binding).Some?
    decreases count - from
  {
    hide ItemPointer;
    if from < i {
      ItemsAreSearched(list, count, from + 1, i, c);
    }
  }

  lemma {:induction false} ArraysAreSearched(lists: seq<ArrayDefinition>, arrays: seq<ArrayState>, from: nat, k: nat,
                                             i: nat, c: nat)
    requires |lists| == |arrays| && from <= k < |lists| && i < |arrays[k].items| && c < |lists[k].controls|
    ensures FindInArrays(lists, arrays, from, ItemPointer(lists[k].binding, i) + lists[k].controls[c].binding).Some?
    decreases |lists| - from
  {
    hide ItemPointer, FindInItems;
    if from < k {
      ArraysAreSearched(lists, arrays, from + 1, k, i, c);
    } else {
      ItemsAreSearched(lists[k], |arrays[k].items|, 0, i, c);
    }
  }

  lemma ControlIsFound(d: Definition, s: State, place: ControlEdits.Place)
    requires Shaped(d, s) && Exists(d, s, place)
    ensures Locate(d, s, BindingOf(d, place)).Some?
  {
    hide ItemPointer, FindInArrays;
    match place
    case Static(c) => assert [] + d.controls[c].binding == d.controls[c].binding;
    case InItem(k, i, c) => ArraysAreSearched(d.arrays, s.arrays, 0, k, i, c);
  }

  /** A binding addresses the one control bound there, on its own or in an item, and none when there is none. */
  lemma LocateIsExact(d: Definition, s: State, place: ControlEdits.Place)
    requires WellFormedDefinition(d) && Shaped(d, s) && Exists(d, s, place)
    ensures Locate(d, s, BindingOf(d, place)) == Some(place)
  {
    ControlIsFound(d, s, place);
    hide Locate, BindingOf;
    var found := Locate(d, s, BindingOf(d, place)).value;
    if found != place {
      ControlsStayApart(d, found, place);
    }
  }

  ghost predicate BindsNothing(d: Definition, s: State, binding: Pointer) {
    forall place: ControlEdits.Place | Exists(d, s, place) :: BindingOf(d, place) != binding
  }

  lemma NothingIsFound(d: Definition, s: State, binding: Pointer)
    requires Shaped(d, s)
    ensures Locate(d, s, binding).None? <==> BindsNothing(d, s, binding)
  {
    hide Locate, BindingOf;
    if Locate(d, s, binding).None? {
      forall place: ControlEdits.Place | Exists(d, s, place) ensures BindingOf(d, place) != binding {
        ControlIsFound(d, s, place);
      }
    }
  }

  // -------------------------------------------------------------------------------- typing

  /** What stands at the control lets text be typed over it. */
  predicate TakesTextOver(control: ControlDefinition, current: Option<Json>, objectAbove: bool) {
    match (control.kind, current)
    case (StringControl, Some(String(_))) => true
    case (NumberControl, Some(Number(_))) => true
    case (IntegerControl, Some(Number(text))) => NumberIsInteger(text)
    case (_, Some(Null)) => control.acceptsNull
    case (_, Some(_)) => false
    case (_, None) => objectAbove
  }

  predicate ReadsText(kind: ControlKind) {
    kind == StringControl || kind == NumberControl || kind == IntegerControl
  }

  /** Typing is refused for no other reason than these, each with its error, and then nothing changes. */
  lemma WhenTypingIsAccepted(d: Definition, s: State, place: ControlEdits.Place, input: Bytes, maximumDigits: nat)
    requires WellFormedDefinition(d) && Shaped(d, s) && Exists(d, s, place)
    ensures var control, binding := ControlAt(d, place), BindingOf(d, place);
            var (t, r) := EditText(d, s, binding, input, maximumDigits);
            var current, above := Resolve(s.data, binding), ObjectAbove(s.data, binding);
            && (r.Ok? <==> ReadsText(control.kind) && TakesTextOver(control, current, above))
            && (r == Err(UnresolvedControl) <==> ReadsText(control.kind) && current.None? && !above)
            && (r.Err? ==> t == s && (r == Err(UnresolvedControl) || r == Err(OperationNotAllowed)))
  {
    LocateIsExact(d, s, place);
    hide Locate, BindingOf, ControlAt, Resolve, NumberIsInteger, ParseText, AlreadyThere, TypedInto;
  }

  lemma UnboundTextIsRefused(d: Definition, s: State, binding: Pointer, input: Bytes, maximumDigits: nat)
    requires Shaped(d, s)
    ensures BindsNothing(d, s, binding) ==> EditText(d, s, binding, input, maximumDigits) == (s, Err(UnknownControl))
  {
    NothingIsFound(d, s, binding);
    hide Locate, BindsNothing;
  }

  /** What the control holds already counts as the same exactly when it is semantically equal. */
  lemma AlreadyThereMeansEqual(kind: ControlKind, input: Bytes, maximumDigits: nat, current: Option<Json>)
    requires ReadsText(kind) && ParseText(kind, input, maximumDigits).Ok?
    ensures var value := ParseText(kind, input, maximumDigits).value;
            && (if kind == StringControl then value == String(input) else value.Number?)
            && (AlreadyThere(kind, current, value) <==> current.Some? && JsonEqual(current.value, value))
  {
    var value := ParseText(kind, input, maximumDigits).value;
    KindIsRead(kind, input, maximumDigits);
    EqualToItself(value);
    if current.Some? {
      EqualToScalar(current.value, value);
    }
    hide ParseText, NumbersEqual, JsonEqual;
  }

  lemma KindIsRead(kind: ControlKind, input: Bytes, maximumDigits: nat)
    requires ReadsText(kind) && ParseText(kind, input, maximumDigits).Ok?
    ensures var value := ParseText(kind, input, maximumDigits).value;
            if kind == StringControl then value == String(input) else value.Number?
  {
    hide ReadsAsLiteral, CandidateLiteral, OutcomeOfParts, Trim;
  }

  lemma EqualToScalar(current: Json, value: Json)
    ensures value.String? ==> (JsonEqual(current, value) <==> current == value)
    ensures value.Number? ==> (JsonEqual(current, value) <==> current.Number? && NumbersEqual(current.text, value.text))
  {
    hide NumberNormalForm;
  }

  /** Accepted text goes into the buffer. The data is written exactly when the text was read as something else than what
  is there; otherwise at most the state revision moves, exactly when the control's edit state changes. */
  lemma TypingIsExact(d: Definition, s: State, place: ControlEdits.Place, input: Bytes, maximumDigits: nat)
    requires WellFormedDefinition(d) && Shaped(d, s) && Exists(d, s, place)
    requires EditText(d, s, BindingOf(d, place), input, maximumDigits).1.Ok?
    ensures ReadsText(ControlAt(d, place).kind)
    ensures var control, binding := ControlAt(d, place), BindingOf(d, place);
            var t := EditText(d, s, binding, input, maximumDigits).0;
            var current, parsed := Resolve(s.data, binding), ParseText(control.kind, input, maximumDigits);
            var edit := EditState(Some(input), if parsed.Ok? then None else Some(parsed.error), EditAt(d, s, place).touched);
            && OnlyEditChanged(d, s, t, place) && Exists(d, t, place) && EditAt(d, t, place) == edit
            && if parsed.Ok? && !(current.Some? && JsonEqual(current.value, parsed.value)) then
                 && Resolve(t.data, binding) == Some(parsed.value) && OnlyDataAt(s.data, t.data, binding)
                 && RecordsDataChange(s, t)
               else if edit == EditAt(d, s, place) then t == s
               else RecordsStateChange(s, t)
  {
    var control, binding := ControlAt(d, place), BindingOf(d, place);
    var t := EditText(d, s, binding, input, maximumDigits).0;
    LocateIsExact(d, s, place);
    TypedTextTakesEffect(d, s, binding, input, maximumDigits);
    var parsed := ParseText(control.kind, input, maximumDigits);
    if parsed.Ok? {
      AlreadyThereMeansEqual(control.kind, input, maximumDigits, Resolve(s.data, binding));
    }
    var writes := parsed.Ok? && !AlreadyThere(control.kind, Resolve(s.data, binding), parsed.value);
    var edit := EditState(Some(input), if parsed.Ok? then None else Some(parsed.error), EditAt(d, s, place).touched);
    TypingUnfolds(d, s, place, input, maximumDigits);
    hide EditText, Locate, ParseText, AlreadyThere, JsonEqual, TextRefusal, OnlyEditChanged, OnlyDataAt;
    if writes {
      AcceptedTextHasAPlace(d, s, binding, parsed.value);
      WrittenRecords(d, s, place, parsed.value, edit);
    } else {
      WithEditRecords(d, s, place, edit);
    }
  }

  lemma TypingUnfolds(d: Definition, s: State, place: ControlEdits.Place, input: Bytes, maximumDigits: nat)
    requires Shaped(d, s) && Exists(d, s, place) && Locate(d, s, BindingOf(d, place)) == Some(place)
    requires EditText(d, s, BindingOf(d, place), input, maximumDigits).1.Ok?
    ensures ReadsText(ControlAt(d, place).kind) && TextRefusal(d, s, BindingOf(d, place)).None?
    ensures var control, binding := ControlAt(d, place), BindingOf(d, place);
            var parsed := ParseText(control.kind, input, maximumDigits);
            var edit := EditState(Some(input), if parsed.Ok? then None else Some(parsed.error), EditAt(d, s, place).touched);
            var t := EditText(d, s, binding, input, maximumDigits).0;
            if parsed.Ok? && !AlreadyThere(control.kind, Resolve(s.data, binding), parsed.value) then
              SetBound(s.data, binding, parsed.value).Some? && t == DataChanged(Written(d, s, place, parsed.value, edit))
            else t == if edit == EditAt(d, s, place) then s
                      else WithEdit(d, s, place, edit).(stateRevision := s.stateRevision + 1)
  {
    var control, binding := ControlAt(d, place), BindingOf(d, place);
    var parsed := ParseText(control.kind, input, maximumDigits);
    hide Locate, ParseText, AlreadyThere, Resolve, SetBound, BindingOf, Written, WithEdit, EditAt, ControlAt, TextRefusal;
    if parsed.Ok? {
      AcceptedTextHasAPlace(d, s, binding, parsed.value);
    }
    AcceptedKindReads(d, s, place);
  }

  lemma AcceptedKindReads(d: Definition, s: State, place: ControlEdits.Place)
    requires Shaped(d, s) && Exists(d, s, place) && Locate(d, s, BindingOf(d, place)) == Some(place)
    ensures TextRefusal(d, s, BindingOf(d, place)).None? ==> ReadsText(ControlAt(d, place).kind)
  {
    hide Locate, Resolve, BindingOf, ControlAt;
  }

  lemma WrittenRecords(d: Definition, s: State, place: ControlEdits.Place, value: Json, edit: EditState)
    requires Shaped(d, s) && Exists(d, s, place) && SetBound(s.data, BindingOf(d, place), value).Some?
    ensures RecordsDataChange(s, DataChanged(Written(d, s, place, value, edit)))
    ensures Resolve(DataChanged(Written(d, s, place, value, edit)).data, BindingOf(d, place)) == Some(value)
    ensures OnlyDataAt(s.data, DataChanged(Written(d, s, place, value, edit)).data, BindingOf(d, place))
  {
    WrittenTakesEffect(d, s, place, value, edit);
    hide SetBound, Resolve, OnlyDataAt, BindingOf, OnlyEditChanged, EditAt;
  }

  lemma WithEditRecords(d: Definition, s: State, place: ControlEdits.Place, edit: EditState)
    requires Shaped(d, s) && Exists(d, s, place)
    ensures RecordsStateChange(s, WithEdit(d, s, place, edit).(stateRevision := s.stateRevision + 1))
  {
  }

  // ------------------------------------------------------------------------------ what is read

  /** A number control reads exactly the numbers of the grammar, with white space around them; a string control takes
  every text as it is. */
  lemma WhatIsRead(input: Bytes, maximumDigits: nat)
    ensures ParseText(StringControl, input, maximumDigits) == Ok(String(input))
    ensures ParseText(NumberControl, input, maximumDigits)
         == if IsLiteral(Trim(input)) then Ok(Number(Trim(input))) else Err(InvalidNumber)
    ensures !IsLiteral(Trim(input)) ==> ParseText(IntegerControl, input, maximumDigits) == Err(InvalidInteger)
  {
    ReaderIsExact(Trim(input));
    hide ReadsAsLiteral, IsLiteral, Trim;
  }

  predicate IsSpace(b: Byte) {
    b == 0x20 || b == 0x09 || b == 0x0A || b == 0x0D
  }

  lemma {:induction false} StartIsTrimmed(text: Bytes) returns (before: Bytes)
    ensures text == before + TrimStart(text) && forall i | 0 <= i < |before| :: IsSpace(before[i])
    ensures TrimStart(text) != [] ==> !IsSpace(TrimStart(text)[0])
    decreases |text|
  {
    if text != [] && IsSpaceByte(text[0]) {
      var rest := StartIsTrimmed(text[1..]);
      before := [text[0]] + rest;
      assert text == [text[0]] + text[1..];
    } else {
      before := [];
    }
  }

  lemma {:induction false} EndIsTrimmed(text: Bytes) returns (after: Bytes)
    ensures text == TrimEnd(text) + after && forall i | 0 <= i < |after| :: IsSpace(after[i])
    ensures TrimEnd(text) != [] ==> !IsSpace(TrimEnd(text)[|TrimEnd(text)| - 1]) && TrimEnd(text)[0] == text[0]
    decreases |text|
  {
    if text != [] && IsSpaceByte(text[|text| - 1]) {
      var rest := EndIsTrimmed(text[..|text| - 1]);
      after := rest + [text[|text| - 1]];
      assert text == text[..|text| - 1] + [text[|text| - 1]];
    } else {
      after := [];
    }
  }

  /** White space, and only white space, is dropped on both sides, all of it. */
  lemma TrimIsExact(text: Bytes) returns (before: Bytes, after: Bytes)
    ensures text == before + Trim(text) + after
    ensures (forall i | 0 <= i < |before| :: IsSpace(before[i])) && forall i | 0 <= i < |after| :: IsSpace(after[i])
    ensures Trim(text) != [] ==> !IsSpace(Trim(text)[0]) && !IsSpace(Trim(text)[|Trim(text)| - 1])
  {
    before := StartIsTrimmed(text);
    after := EndIsTrimmed(TrimStart(text));
  }

  // ------------------------------------------------------------------------------- setting

  /** A value that a control of this kind may hold. */
  predicate MayHold(control: ControlDefinition, value: Json) {
    if value == Null then control.acceptsNull
    else
      match (control.kind, value)
      case (StringControl, String(_)) => true
      case (NumberControl, Number(_)) => true
      case (IntegerControl, Number(text)) => NumberIsInteger(text)
      case (BooleanControl, Bool(_)) => true
      case (StringControl, _) => false
      case (NumberControl, _) => false
      case (IntegerControl, _) => false
      case (BooleanControl, _) => false
      case _ => exists i | 0 <= i < |control.choices| :: JsonEqual(control.choices[i], value)
  }

  /** The value as it is stored: the first option equal to it, or itself when no option is. */
  ghost predicate IsStoredAs(options: seq<Json>, value: Json, stored: Json) {
    || (exists o :: 0 <= o < |options| && JsonEqual(options[o], value) && stored == options[o]
                    && forall p | 0 <= p < o :: !JsonEqual(options[p], value))
    || (stored == value && forall p | 0 <= p < |options| :: !JsonEqual(options[p], value))
  }

  lemma SpellingIsStored(options: seq<Json>, value: Json)
    ensures IsStoredAs(options, value, Spelling(options, value))
    ensures JsonEqual(Spelling(options, value), value)
  {
    EqualToItself(value);
    hide JsonEqual;
    var o := OptionIndex(options, value);
    if o.Some? {
      assert JsonEqual(options[o.value], value) && Spelling(options, value) == options[o.value];
    }
  }

  lemma EqualToEquals(current: Json, spelled: Json, value: Json)
    requires JsonEqual(spelled, value)
    ensures JsonEqual(current, spelled) <==> JsonEqual(current, value)
  {
    if JsonEqual(current, spelled) {
      EqualIsTransitive(current, spelled, value);
    }
    if JsonEqual(current, value) {
      EqualIsSymmetric(spelled, value);
      EqualIsTransitive(current, value, spelled);
    }
  }

  /** Setting is accepted exactly for a value the control may hold where there is a place for it. An equal value changes
  nothing; another one is stored as the control spells it, and the control's input is cleared. */
  lemma SettingIsDecided(d: Definition, s: State, place: ControlEdits.Place, value: Json)
    requires WellFormedDefinition(d) && Shaped(d, s) && Exists(d, s, place)
    ensures var control, binding := ControlAt(d, place), BindingOf(d, place);
            var (t, r) := SetValue(d, s, binding, value);
            var current, before := Resolve(s.data, binding), EditAt(d, s, place);
            if !MayHold(control, value) then t == s && r == Err(OperationNotAllowed)
            else if current.Some? && JsonEqual(current.value, value) then t == s && r == Ok(())
            else if current.None? && !ObjectAbove(s.data, binding) then t == s && r == Err(UnresolvedControl)
            else
              && r == Ok(()) && RecordsDataChange(s, t) && OnlyDataAt(s.data, t.data, binding)
              && Resolve(t.data, binding).Some? && IsStoredAs(control.choices, value, Resolve(t.data, binding).value)
              && OnlyEditChanged(d, s, t, place) && Exists(d, t, place)
              && EditAt(d, t, place) == EditState(None, None, before.touched)
  {
    var control, binding := ControlAt(d, place), BindingOf(d, place);
    var spelled, current := Spelling(control.choices, value), Resolve(s.data, binding);
    LocateIsExact(d, s, place);
    CompatibleIsHeld(control, value);
    SpellingIsStored(control.choices, value);
    WhereSetBoundSucceeds(s.data, binding, spelled);
    if current.Some? {
      EqualToEquals(current.value, spelled, value);
    }
    SettingUnfolds(d, s, place, value);
    hide SetValue, Locate, IsCompatible, MayHold, Spelling, JsonEqual, Resolve, SetBound, IsStoredAs;
    if SetValue(d, s, binding, value).1.Ok? {
      SetValueTakesEffect(d, s, binding, value);
      if !(current.Some? && JsonEqual(current.value, value)) {
        WrittenRecords(d, s, place, spelled, Cleared(EditAt(d, s, place)));
        WrittenTakesEffect(d, s, place, spelled, Cleared(EditAt(d, s, place)));
        hide Written, OnlyDataAt, OnlyEditChanged, EditAt;
        SameEdits(d, s, Written(d, s, place, spelled, Cleared(EditAt(d, s, place))), SetValue(d, s, binding, value).0, place);
      }
    }
  }

  lemma CompatibleIsHeld(control: ControlDefinition, value: Json)
    ensures IsCompatible(control, value) <==> MayHold(control, value)
  {
    hide JsonEqual, NumberIsInteger;
  }

  lemma SettingUnfolds(d: Definition, s: State, place: ControlEdits.Place, value: Json)
    requires Shaped(d, s) && Exists(d, s, place) && Locate(d, s, BindingOf(d, place)) == Some(place)
    ensures var control, binding := ControlAt(d, place), BindingOf(d, place);
            var spelled, current := Spelling(control.choices, value), Resolve(s.data, binding);
            SetValue(d, s, binding, value)
            == if !IsCompatible(control, value) then (s, Err(OperationNotAllowed))
               else if current.Some? && JsonEqual(current.value, spelled) then (s, Ok(()))
               else if SetBound(s.data, binding, spelled).None? then (s, Err(UnresolvedControl))
               else (DataChanged(Written(d, s, place, spelled, Cleared(EditAt(d, s, place)))), Ok(()))
  {
    hide Locate, IsCompatible, Spelling, JsonEqual, Resolve, SetBound, BindingOf, Written, EditAt, ControlAt, Cleared;
  }

  lemma UnboundValueIsRefused(d: Definition, s: State, binding: Pointer, value: Json)
    requires Shaped(d, s)
    ensures BindsNothing(d, s, binding) ==> SetValue(d, s, binding, value) == (s, Err(UnknownControl))
  {
    NothingIsFound(d, s, binding);
    hide Locate, BindsNothing;
  }

  // ------------------------------------------------------------------------------- leaving

  /** Leaving a control always succeeds. Its revision moves exactly when it was not touched or a buffer is dropped. */
  lemma LeavingIsExact(d: Definition, s: State, place: ControlEdits.Place)
    requires WellFormedDefinition(d) && Shaped(d, s) && Exists(d, s, place)
    ensures var (t, r) := Blur(d, s, BindingOf(d, place));
            var before := EditAt(d, s, place);
            var after := EditState(if before.blocker.None? then None else before.buffer, before.blocker, true);
            && r == Ok(()) && OnlyEditChanged(d, s, t, place) && Exists(d, t, place) && EditAt(d, t, place) == after
            && if after == before then t == s else RecordsStateChange(s, t)
  {
    LocateIsExact(d, s, place);
    LeavingTakesEffect(d, s, BindingOf(d, place));
    hide Locate, OnlyEditChanged, BindingOf, EditAt;
    WithEditRecords(d, s, place, Finalized(EditAt(d, s, place)).(touched := true));
  }

  /** Leaving an array means something for a multiple choice only: it becomes touched, and nothing else changes. */
  lemma LeavingAnArrayIsExact(d: Definition, s: State, binding: Pointer)
    requires WellFormedDefinition(d) && Shaped(d, s) && BindsNothing(d, s, binding)
    ensures forall k | 0 <= k < |d.arrays| && d.arrays[k].binding == binding ::
              var list, (t, r) := d.arrays[k], Blur(d, s, binding);
              if !OffersChoices(list) then t == s && r == Err(UnknownControl)
              else
                && r == Ok(())
                && if s.arrays[k].touched then t == s
                   else t == s.(arrays := s.arrays[k := ArrayState(s.arrays[k].items, true)],
                                stateRevision := s.stateRevision + 1)
    ensures (forall k | 0 <= k < |d.arrays| :: d.arrays[k].binding != binding) ==>
              Blur(d, s, binding) == (s, Err(UnknownControl))
  {
    NothingIsFound(d, s, binding);
    forall k | 0 <= k < |d.arrays| && d.arrays[k].binding == binding ensures ArrayIndex(d.arrays, binding) == Some(k) {
      ArrayIsFound(d, k);
    }
    hide Locate, BindsNothing, ArrayIndex;
  }
}
