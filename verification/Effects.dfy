/** What the operations on controls and structures do to the one place they are asked to change, and to nothing else. */
module Effects {
  import opened Bytes
  import opened Json
  import opened FormModel
  import opened TextInput
  import opened ArrayOperations
  import opened Toggles
  import opened ControlEdits
  import opened Structures
  import opened Lifecycle

  // ---------------------------------------------------------------------- one control

  /** Items, baseline and every other control's edit state are as before. */
  ghost predicate OnlyEditChanged(d: Definition, s: State, t: State, place: ControlEdits.Place)
    requires Shaped(d, s)
  {
    && Shaped(d, t) && LiveIds(t.arrays) == LiveIds(s.arrays) && t.nextIdentity == s.nextIdentity
    && t.baseline == s.baseline && t.baselineIds == s.baselineIds
    && forall q: ControlEdits.Place | Exists(d, s, q) && q != place :: Exists(d, t, q) && EditAt(d, t, q) == EditAt(d, s, q)
  }

  lemma WithEditChangesOne(d: Definition, s: State, place: ControlEdits.Place, edit: EditState)
    requires Shaped(d, s) && Exists(d, s, place)
    ensures OnlyEditChanged(d, s, WithEdit(d, s, place, edit), place)
    ensures Exists(d, WithEdit(d, s, place, edit), place) && EditAt(d, WithEdit(d, s, place, edit), place) == edit
  {
    WithEditIsAligned(d, s, place, edit);
    WithEditReads(d, s, place, edit);
    hide LiveIds;
  }

  /** Nothing in the data but what sits at the pointer, or above or below it, differs. */
  ghost predicate OnlyDataAt(before: Json, after: Json, at: Pointer) {
    forall q | Apart(at, q) :: Resolve(after, q) == Resolve(before, q)
  }

  lemma SetBoundTakesEffect(data: Json, at: Pointer, value: Json)
    requires SetBound(data, at, value).Some?
    ensures Resolve(SetBound(data, at, value).value, at) == Some(value)
    ensures OnlyDataAt(data, SetBound(data, at, value).value, at)
  {
    SetBoundReadsBack(data, at, value);
    forall q | Apart(at, q) ensures Resolve(SetBound(data, at, value).value, q) == Resolve(data, q) {
      SetBoundFrame(data, at, value, q);
    }
  }

  /** What a write at a control leaves behind. */
  lemma WrittenTakesEffect(d: Definition, s: State, place: ControlEdits.Place, value: Json, edit: EditState)
    requires Shaped(d, s) && Exists(d, s, place) && SetBound(s.data, BindingOf(d, place), value).Some?
    ensures var t := Written(d, s, place, value, edit);
            && Resolve(t.data, BindingOf(d, place)) == Some(value) && OnlyDataAt(s.data, t.data, BindingOf(d, place))
            && OnlyEditChanged(d, s, t, place) && Exists(d, t, place) && EditAt(d, t, place) == edit
  {
    SetBoundTakesEffect(s.data, BindingOf(d, place), value);
    hide SetBound, Resolve, OnlyDataAt, BindingOf;
    var u := s.(data := SetBound(s.data, BindingOf(d, place), value).value);
    WithEditChangesOne(d, u, place, edit);
    assert forall q | Exists(d, s, q) :: Exists(d, u, q) && EditAt(d, u, q) == EditAt(d, s, q);
  }

  /** A state that differs only in what the other fields record. */
  lemma SameEdits(d: Definition, s: State, t: State, u: State, place: ControlEdits.Place)
    requires Shaped(d, s) && Exists(d, s, place) && OnlyEditChanged(d, s, t, place)
    requires Exists(d, t, place)
    requires u == t.(batches := u.batches, dataRevision := u.dataRevision, stateRevision := u.stateRevision)
    ensures OnlyEditChanged(d, s, u, place) && Exists(d, u, place) && EditAt(d, u, place) == EditAt(d, t, place)
  {
    hide LiveIds;
    assert forall q | Exists(d, t, q) :: Exists(d, u, q) && EditAt(d, u, q) == EditAt(d, t, q);
  }

  /** Accepted text becomes the control's buffer; if it can be read, the data holds what it says, and if it cannot, the
  data stays and the reason is kept. */
  lemma TypedTextTakesEffect(d: Definition, s: State, binding: Pointer, input: Bytes, maximumDigits: nat)
    requires Shaped(d, s) && EditText(d, s, binding, input, maximumDigits).1.Ok?
    ensures Locate(d, s, binding).Some?
    ensures TakesText(ControlAt(d, Locate(d, s, binding).value).kind)
    ensures var t, place := EditText(d, s, binding, input, maximumDigits).0, Locate(d, s, binding).value;
            var parsed := ParseText(ControlAt(d, place).kind, input, maximumDigits);
            && OnlyEditChanged(d, s, t, place) && Exists(d, t, place)
            && EditAt(d, t, place).buffer == Some(input) && EditAt(d, t, place).touched == EditAt(d, s, place).touched
            && EditAt(d, t, place).blocker == (if parsed.Ok? then None else Some(parsed.error))
            && OnlyDataAt(s.data, t.data, binding)
            && (if parsed.Ok? then Resolve(t.data, binding).Some? && JsonEqual(Resolve(t.data, binding).value, parsed.value)
                else t.data == s.data)
  {
    var place := Locate(d, s, binding).value;
    var control, before := ControlAt(d, place), EditAt(d, s, place);
    var parsed := ParseText(control.kind, input, maximumDigits);
    var edit := before.(buffer := Some(input), blocker := if parsed.Ok? then None else Some(parsed.error));
    var t := EditText(d, s, binding, input, maximumDigits).0;
    if parsed.Ok? && !AlreadyThere(control.kind, Resolve(s.data, binding), parsed.value) {
      AcceptedTextHasAPlace(d, s, binding, parsed.value);
      WrittenTakesEffect(d, s, place, parsed.value, edit);
      EqualToItself(parsed.value);
      hide SetBound, Resolve, OnlyDataAt, Written, ParseText, AlreadyThere, JsonEqual, TextRefusal, Locate, OnlyEditChanged;
      SameEdits(d, s, Written(d, s, place, parsed.value, edit), t, place);
    } else {
      if parsed.Ok? {
        AlreadyThereIsEqual(control.kind, Resolve(s.data, binding), parsed.value);
      }
      WithEditChangesOne(d, s, place, edit);
      WithEditChangesOne(d, s, place, before);
      WithEditReads(d, s, place, edit);
      hide SetBound, Resolve, Written, ParseText, AlreadyThere, JsonEqual, TextRefusal, Locate, LiveIds;
      if edit != before {
        SameEdits(d, s, WithEdit(d, s, place, edit), t, place);
      }
    }
  }

  /** A value that is set is what the data holds, spelled as the control spells it, unless an equal one is there already;
  in that case nothing happens at all. */
  lemma SetValueTakesEffect(d: Definition, s: State, binding: Pointer, value: Json)
    requires Shaped(d, s) && SetValue(d, s, binding, value).1.Ok?
    ensures Locate(d, s, binding).Some?
    ensures var t, place := SetValue(d, s, binding, value).0, Locate(d, s, binding).value;
            && Resolve(t.data, binding).Some? && JsonEqual(Resolve(t.data, binding).value, value)
            && OnlyDataAt(s.data, t.data, binding) && OnlyEditChanged(d, s, t, place) && Exists(d, t, place)
            && (t == s || (&& Resolve(t.data, binding) == Some(Spelling(ControlAt(d, place).choices, value))
                           && EditAt(d, t, place) == Cleared(EditAt(d, s, place))))
  {
    var place := Locate(d, s, binding).value;
    var control, t := ControlAt(d, place), SetValue(d, s, binding, value).0;
    var spelled, current := Spelling(control.choices, value), Resolve(s.data, binding);
    EqualToItself(value);
    assert JsonEqual(spelled, value);
    if current.Some? && JsonEqual(current.value, spelled) {
      EqualIsTransitive(current.value, spelled, value);
      WithEditChangesOne(d, s, place, EditAt(d, s, place));
      hide JsonEqual, SetBound, Resolve, Locate, LiveIds, IsCompatible, Spelling;
    } else {
      WrittenTakesEffect(d, s, place, spelled, Cleared(EditAt(d, s, place)));
      hide JsonEqual, SetBound, Resolve, Locate, Written, IsCompatible, Spelling, OnlyEditChanged, OnlyDataAt;
      SameEdits(d, s, Written(d, s, place, spelled, Cleared(EditAt(d, s, place))), t, place);
    }
  }

  /** Leaving a control marks it touched, drops a buffer that was read, and does nothing else. */
  lemma LeavingTakesEffect(d: Definition, s: State, binding: Pointer)
    requires Shaped(d, s) && Locate(d, s, binding).Some?
    ensures var t, place := Blur(d, s, binding).0, Locate(d, s, binding).value;
            var before := EditAt(d, s, place);
            && Blur(d, s, binding).1.Ok? && t.data == s.data && t.batches == s.batches && t.dataRevision == s.dataRevision
            && OnlyEditChanged(d, s, t, place) && Exists(d, t, place)
            && EditAt(d, t, place) == EditState(if before.blocker.None? then None else before.buffer, before.blocker, true)
  {
    var place := Locate(d, s, binding).value;
    var edit := Finalized(EditAt(d, s, place)).(touched := true);
    WithEditChangesOne(d, s, place, edit);
    WithEditChangesOne(d, s, place, EditAt(d, s, place));
    WithEditReads(d, s, place, edit);
    hide Locate, LiveIds;
    if edit != EditAt(d, s, place) {
      SameEdits(d, s, WithEdit(d, s, place, edit), Blur(d, s, binding).0, place);
    }
  }

  // ------------------------------------------------------------------------- structures

  /** Every array at or below the pointer has new items, one for each element; every other array has its own. */
  ghost predicate RenewedBelow(d: Definition, s: State, at: Pointer, data: Json, arrays: seq<ArrayState>)
    requires Shaped(d, s)
  {
    && |arrays| == |d.arrays|
    && forall k | 0 <= k < |d.arrays| ::
         && arrays[k].touched == s.arrays[k].touched
         && if at <= d.arrays[k].binding then AllNew(d.arrays[k], arrays[k].items, s.nextIdentity, data)
            else arrays[k].items == s.arrays[k].items
  }

  ghost predicate AllNew(list: ArrayDefinition, items: seq<Item>, first: nat, data: Json) {
    && |items| == |ValuesAt(data, list.binding)|
    && forall i | 0 <= i < |items| :: first <= items[i].identity && items[i] == NewItem(list, items[i].identity)
  }

  lemma RestructuringRenews(d: Definition, s: State, at: Pointer, data: Json)
    requires Shaped(d, s)
    ensures RenewedBelow(d, s, at, data, Restructured(d, s, at, data).arrays)
    ensures Restructured(d, s, at, data).edits == s.edits
  {
    hide RenewedBelow;
    var t := Restructured(d, s, at, data);
    forall k | 0 <= k < |d.arrays|
      ensures t.arrays[k].touched == s.arrays[k].touched
      ensures if at <= d.arrays[k].binding then AllNew(d.arrays[k], t.arrays[k].items, s.nextIdentity, data)
              else t.arrays[k].items == s.arrays[k].items
    {
      var n := PlannedAt(d.arrays, s.arrays, BelowPlans(d, at), data, s.nextIdentity, k);
      hide Planned, ValuesAt;
    }
    IsRenewed(d, s, at, data, t.arrays);
  }

  lemma IsRenewed(d: Definition, s: State, at: Pointer, data: Json, arrays: seq<ArrayState>)
    requires Shaped(d, s) && |arrays| == |d.arrays|
    requires forall k | 0 <= k < |d.arrays| ::
               && arrays[k].touched == s.arrays[k].touched
               && if at <= d.arrays[k].binding then AllNew(d.arrays[k], arrays[k].items, s.nextIdentity, data)
                  else arrays[k].items == s.arrays[k].items
    ensures RenewedBelow(d, s, at, data, arrays)
  {
    hide AllNew;
  }

  /** A structure is made exactly where there is nothing yet but an object to hold it. */
  lemma MaterializeTakesEffect(d: Definition, s: State, at: Pointer, seed: Json)
    requires Shaped(d, s)
    ensures var (t, r) := Materialize(d, s, at, seed);
            && (r.Ok? <==> Resolve(s.data, at).None? && !IsScalar(seed) && at != [] && ParentIsObject(s.data, at))
            && (r.Ok? ==> && Resolve(t.data, at) == Some(seed) && OnlyDataAt(s.data, t.data, at)
                          && t.edits == s.edits && RenewedBelow(d, s, at, t.data, t.arrays))
            && (r.Err? ==> t == s)
  {
    WhereSetBoundSucceeds(s.data, at, seed);
    if Materialize(d, s, at, seed).1.Ok? {
      var data := SetBound(s.data, at, seed).value;
      SetBoundTakesEffect(s.data, at, seed);
      RestructuringRenews(d, s, at, data);
      hide Restructured, RenewedBelow, OnlyDataAt, SetBound, Resolve;
    }
  }

  /** The edit states at or below the pointer are cleared, in whatever items are there now. */
  ghost predicate ClearedAt(d: Definition, s: State, at: Pointer, data: Json, t: State)
    requires Shaped(d, s)
  {
    && t.edits == ClearedEdits(d.controls, s.edits, [], at) && |t.arrays| == |d.arrays|
    && forall k | 0 <= k < |d.arrays| ::
         && t.arrays[k].touched == s.arrays[k].touched
         && if at <= d.arrays[k].binding then AllNew(d.arrays[k], t.arrays[k].items, s.nextIdentity, data)
            else
              && ItemsShaped(s.arrays[k].items, |d.arrays[k].controls|)
              && t.arrays[k].items == ClearedItems(d.arrays[k], s.arrays[k].items, at)
  }

  lemma ClearingNewItems(list: ArrayDefinition, items: seq<Item>, first: nat, data: Json, at: Pointer)
    requires ItemsShaped(items, |list.controls|) && AllNew(list, items, first, data)
    ensures AllNew(list, ClearedItems(list, items, at), first, data)
  {
    var cleared := ClearedItems(list, items, at);
    forall i | 0 <= i < |items| ensures cleared[i] == items[i] {
      assert cleared[i].edits == items[i].edits;
    }
    hide ValuesAt;
  }

  lemma RestructuredAndCleared(d: Definition, s: State, at: Pointer, data: Json)
    requires Shaped(d, s)
    ensures ClearedAt(d, s, at, data, ClearedBelow(d, ShapedRestructured(d, s, at, data), at))
    ensures ClearedBelow(d, ShapedRestructured(d, s, at, data), at).data == data
  {
    RestructuringRenews(d, s, at, data);
    var u := ShapedRestructured(d, s, at, data);
    var t := ClearedBelow(d, u, at);
    assert u.data == data;
    hide Restructured, ValuesAt, AllNew;
    forall k | 0 <= k < |d.arrays| && at <= d.arrays[k].binding
      ensures AllNew(d.arrays[k], t.arrays[k].items, s.nextIdentity, data)
    {
      ClearingNewItems(d.arrays[k], u.arrays[k].items, s.nextIdentity, data, at);
    }
  }

  /** Replacing a structure puts the value in its place, with new items and without any input at or below it. */
  lemma ReplaceStructureTakesEffect(d: Definition, s: State, at: Pointer, value: Json)
    requires Shaped(d, s)
    ensures var (t, r) := ReplaceStructure(d, s, at, value);
            && (r.Ok? <==> MayReplaceStructure(d, s, at, value))
            && (r.Ok? ==> && Resolve(t.data, at) == Some(value) && OnlyDataAt(s.data, t.data, at)
                          && ClearedAt(d, s, at, t.data, t))
            && (r.Err? ==> t == s)
  {
    WhereSetBoundSucceeds(s.data, at, value);
    if ReplaceStructure(d, s, at, value).1.Ok? {
      var data := SetBound(s.data, at, value).value;
      SetBoundTakesEffect(s.data, at, value);
      RestructuredAndCleared(d, s, at, data);
      ClearedThenRecorded(d, s, at, data, ClearedBelow(d, ShapedRestructured(d, s, at, data), at));
      hide OnlyDataAt, SetBound, Resolve, ClearedAt, ClearedBelow, ShapedRestructured;
    }
  }

  lemma ClearedThenRecorded(d: Definition, s: State, at: Pointer, data: Json, t: State)
    requires Shaped(d, s) && ClearedAt(d, s, at, data, t)
    ensures ClearedAt(d, s, at, data, DataChanged(t)) && DataChanged(t).data == t.data
  {
    var u := DataChanged(t);
    hide AllNew;
    assert u.arrays == t.arrays && u.edits == t.edits;
  }

  /** Removing a value leaves nothing at its place, and no input at or below it. */
  lemma RemoveValueTakesEffect(d: Definition, s: State, at: Pointer)
    requires Shaped(d, s)
    ensures var (t, r) := RemoveValue(d, s, at);
            && (r.Ok? <==> TakeBound(s.data, at).Some?)
            && (r.Ok? ==> && Resolve(s.data, at).Some? && Resolve(t.data, at).None? && OnlyDataAt(s.data, t.data, at)
                          && ClearedAt(d, s, at, t.data, t))
            && (r.Err? ==> t == s)
  {
    if RemoveValue(d, s, at).1.Ok? {
      var data := TakeBound(s.data, at).value;
      TakeBoundRemoves(s.data, at);
      forall q | Apart(at, q) ensures Resolve(data, q) == Resolve(s.data, q) {
        TakeBoundFrame(s.data, at, q);
      }
      assert OnlyDataAt(s.data, data, at);
      RestructuredAndCleared(d, s, at, data);
      ClearedThenRecorded(d, s, at, data, ClearedBelow(d, ShapedRestructured(d, s, at, data), at));
      hide OnlyDataAt, TakeBound, Resolve, ClearedAt, ClearedBelow, ShapedRestructured;
    }
  }

  // -------------------------------------------------------------------------- baselines, old and new

  /** A reset brings back the baseline: its data, exactly its identities in their order, and no trace of input. No
  identity is handed out again. */
  lemma ResetRestoresTheBaseline(d: Definition, s: State)
    requires Sound(d, s)
    ensures var t := Reset(d, s);
            && JsonEqual(t.data, s.baseline) && t.baseline == s.baseline && t.baselineIds == s.baselineIds
            && LiveIds(t.arrays) == s.baselineIds && t.nextIdentity == s.nextIdentity
            && t.edits == UntouchedEdits(|d.controls|) && !t.submissionAttempted
            && forall k | 0 <= k < |d.arrays| ::
                 && !t.arrays[k].touched
                 && forall i | 0 <= i < |t.arrays[k].items| ::
                      t.arrays[k].items[i] == NewItem(d.arrays[k], s.baselineIds[k][i])
  {
    ResetIsSound(d, s);
    hide LiveIds, JsonEqual, Aligned, Identified, Current;
  }


  /** A reinitialised form is the form that would be created from the data, but for identities and revisions. */
  lemma ReinitializedIsNew(d: Definition, s: State, data: Json)
    requires Shaped(d, s) && data.Object?
    ensures var t, created := Reinitialize(d, s, data).0, CreateForm(d, data).value;
            && JsonEqual(t.data, created.data) && t.baseline == created.baseline && t.edits == created.edits
            && t.batches == created.batches && t.submissionAttempted == created.submissionAttempted
            && t.baselineIds == LiveIds(t.arrays)
            && |t.arrays| == |created.arrays|
            && forall k | 0 <= k < |d.arrays| ::
                 && AllNew(d.arrays[k], t.arrays[k].items, s.nextIdentity, data)
                 && AllNew(d.arrays[k], created.arrays[k].items, 1, data)
                 && t.arrays[k].touched == created.arrays[k].touched == false
  {
    EqualToItself(data);
    forall k | 0 <= k < |d.arrays|
      ensures AllNew(d.arrays[k], Reinitialize(d, s, data).0.arrays[k].items, s.nextIdentity, data)
      ensures AllNew(d.arrays[k], CreateForm(d, data).value.arrays[k].items, 1, data)
      ensures !Reinitialize(d, s, data).0.arrays[k].touched && !CreateForm(d, data).value.arrays[k].touched
    {
      NewArraysAreNew(d, data, s.nextIdentity, k);
      NewArraysAreNew(d, data, 1, k);
      hide FreshArrays, AllNew;
    }
    hide FreshArrays, AllNew, JsonEqual;
  }

  lemma NewArraysAreNew(d: Definition, data: Json, next: nat, k: nat)
    requires k < |d.arrays|
    ensures AllNew(d.arrays[k], FreshArrays(d, data, next).0[k].items, next, data)
    ensures !FreshArrays(d, data, next).0[k].touched
  {
    var n := PlannedAt(d.arrays, EmptyArrays(|d.arrays|), RenewAll(|d.arrays|), data, next, k);
    hide Planned, ValuesAt;
  }
}
