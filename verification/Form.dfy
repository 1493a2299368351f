/** The form as the program keeps it: fields that every operation updates in place. */
module Forms {
  import opened Bytes
  import opened Numbers
  import opened Json
  import opened FormModel
  import opened TextInput
  import opened ArrayOperations
  import opened Toggles
  import opened ControlEdits
  import opened Structures
  import opened Lifecycle
  import opened ExternalFindings
  import opened HostTransactions
  import opened TransactionEffects
  import opened FormSteps
  import opened FormLoops

  class Form {
    const definition: Definition
    var controls: seq<EditState>
    var arrays: seq<ArrayState>
    var nextItemIdentity: nat
    var baselineArrayIdentities: seq<seq<nat>>
    var baseline: Json
    var formData: Json
    var externalFindingBatches: seq<Batch>
    var submissionAttempted: bool
    var dataRevision: nat
    var stateRevision: nat

    /** The state of the form as a value. */
    function Now(): State
      reads this
    {
      State(controls, arrays, nextItemIdentity, baselineArrayIdentities, baseline, formData, externalFindingBatches,
            submissionAttempted, dataRevision, stateRevision)
    }

    ghost predicate Valid()
      reads this
    {
      WellFormedDefinition(definition) && Sound(definition, Now())
    }

    /** Every buffer without a blocker stands for what is in the data. */
    ghost predicate KeepsInput()
      reads this
      requires Valid()
    {
      Honest(definition, Now())
    }

    /** `create_form`, for data that is an object. */
    constructor (definition: Definition, data: Json)
      requires WellFormedDefinition(definition) && data.Object?
      ensures Valid() && KeepsInput() && this.definition == definition
      ensures Now() == CreateForm(definition, data).value
    {
      var built, next := RenewArrays(definition, data, 1);
      this.definition := definition;
      controls := UntouchedEdits(|definition.controls|);
      arrays, nextItemIdentity := built, next;
      baselineArrayIdentities := LiveIds(built);
      baseline, formData := data, data;
      externalFindingBatches, submissionAttempted, dataRevision, stateRevision := [], false, 0, 0;
      CreatedFormIsSound(definition, data);
    }

    /** What every change of the data does besides. */
    method RecordDataChange()
      modifies this`externalFindingBatches, this`dataRevision, this`stateRevision
      ensures Now() == DataChanged(old(Now()))
    {
      externalFindingBatches := [];
      dataRevision := dataRevision + 1;
      stateRevision := stateRevision + 1;
    }

    // ------------------------------------------------------------------------ array items

    /** Inserts a new item with its value, at a place of both structures. */
    method InsertItem(k: nat, i: nat, value: Json)
      requires Valid() && k < |definition.arrays| && i <= |arrays[k].items| && CanHoldArray(definition, Now(), k)
      modifies this
      ensures Valid() && (old(KeepsInput()) ==> KeepsInput())
      ensures Now() == InsertedRow(definition, old(Now()), k, i, value)
    {
      InsertedHalves(definition, Now(), k, i, value);
      InsertedRowIsSound(definition, Now(), k, i, value);
      hide InsertedRow, SetBound, ValuesAt;
      var list := definition.arrays[k];
      formData := SetBound(formData, list.binding, Array(InsertAt(ValuesAt(formData, list.binding), i, value))).value;
      var identity := nextItemIdentity;
      nextItemIdentity := nextItemIdentity + 1;
      arrays := arrays[k := arrays[k].(items := InsertAt(arrays[k].items, i, NewItem(list, identity)))];
      RecordDataChange();
    }

    method AppendArrayItem(binding: Pointer) returns (r: Result<nat, EditError>)
      requires Valid()
      modifies this
      ensures Valid() && (old(KeepsInput()) ==> KeepsInput())
      ensures (Now(), r) == Append(definition, old(Now()), binding)
    {
      if !CanAppend(definition, Now(), binding) {
        return Err(OperationNotAllowed);
      }
      var k := ArrayIndex(definition.arrays, binding).value;
      var identity := nextItemIdentity;
      PresentArraysHold(definition, Now(), k);
      hide InsertedRow, CanHoldArray;
      InsertItem(k, |arrays[k].items|, definition.arrays[k].creationSeed);
      return Ok(identity);
    }

    method InsertArrayItemBefore(binding: Pointer, before: nat) returns (r: Result<Inserted, EditError>)
      requires Valid()
      modifies this
      ensures Valid() && (old(KeepsInput()) ==> KeepsInput())
      ensures (Now(), r) == InsertBefore(definition, old(Now()), binding, before)
    {
      if !CanAppend(definition, Now(), binding) {
        return Err(OperationNotAllowed);
      }
      var k := ArrayIndex(definition.arrays, binding).value;
      var i := ItemIndex(arrays[k].items, before);
      if i.None? {
        return Err(UnknownControl);
      }
      ghost var items := arrays[k].items;
      var identity := nextItemIdentity;
      PresentArraysHold(definition, Now(), k);
      InsertedItems(definition, Now(), k, i.value, definition.arrays[k].creationSeed);
      hide InsertedRow, CanHoldArray;
      InsertItem(k, i.value, definition.arrays[k].creationSeed);
      var shifted := Ids(arrays[k].items[i.value + 1..]);
      return Ok(Inserted(identity, shifted));
    }

    method RemoveArrayItem(binding: Pointer, identity: nat) returns (r: Result<Removed, EditError>)
      requires Valid()
      modifies this
      ensures Valid() && (old(KeepsInput()) ==> KeepsInput())
      ensures (Now(), r) == Remove(definition, old(Now()), binding, identity)
    {
      RemoveIsSound(definition, Now(), binding, identity);
      if !CanRemove(definition, Now(), binding) {
        return Err(OperationNotAllowed);
      }
      var k := ArrayIndex(definition.arrays, binding).value;
      var i := ItemIndex(arrays[k].items, identity);
      if i.None? {
        return Err(UnknownControl);
      }
      RemovedHalves(definition, Now(), k, i.value);
      PresentArraysHold(definition, Now(), k);
      var values := RemoveAt(ValuesAt(formData, binding), i.value);
      HoldsAnyArray(definition, Now(), k, Array(values));
      hide SetBound, RemoveAt, ValuesAt, CanRemove, Sound, Honest;
      var shifted := Ids(arrays[k].items[i.value + 1..]);
      formData := SetBound(formData, binding, Array(values)).value;
      arrays := arrays[k := arrays[k].(items := RemoveAt(arrays[k].items, i.value))];
      RecordDataChange();
      return Ok(Removed(identity, shifted));
    }

    method MoveArrayItemUp(binding: Pointer, identity: nat) returns (r: Result<Moved, EditError>)
      requires Valid()
      modifies this
      ensures Valid() && (old(KeepsInput()) ==> KeepsInput())
      ensures (Now(), r) == Move(definition, old(Now()), binding, identity, true)
    {
      r := MoveArrayItem(binding, identity, true);
    }

    method MoveArrayItemDown(binding: Pointer, identity: nat) returns (r: Result<Moved, EditError>)
      requires Valid()
      modifies this
      ensures Valid() && (old(KeepsInput()) ==> KeepsInput())
      ensures (Now(), r) == Move(definition, old(Now()), binding, identity, false)
    {
      r := MoveArrayItem(binding, identity, false);
    }

    method MoveArrayItem(binding: Pointer, identity: nat, up: bool) returns (r: Result<Moved, EditError>)
      requires Valid()
      modifies this
      ensures Valid() && (old(KeepsInput()) ==> KeepsInput())
      ensures (Now(), r) == Move(definition, old(Now()), binding, identity, up)
    {
      MoveIsSound(definition, Now(), binding, identity, up);
      var found := ArrayIndex(definition.arrays, binding);
      if found.None? {
        return Err(UnknownControl);
      }
      var k := found.value;
      var i := ItemIndex(arrays[k].items, identity);
      if i.None? {
        return Err(UnknownControl);
      }
      var to := Destination(i.value, up, |arrays[k].items|);
      if to.None? {
        return Err(OperationNotAllowed);
      }
      hide Sound, Honest, JsonEqual, Destination, ValuesAt, Exchanged;
      var displaced := arrays[k].items[to.value].identity;
      var dataChanged := ExchangeItems(k, i.value, to.value);
      return Ok(Moved(identity, displaced, i.value, to.value, dataChanged));
    }

    /** Swaps two items in both structures. */
    method ExchangeItems(k: nat, i: nat, j: nat) returns (dataChanged: bool)
      requires Valid() && k < |definition.arrays| && i < |arrays[k].items| && j < |arrays[k].items|
      modifies this
      ensures Now() == Exchanged(definition, old(Now()), k, i, j)
      ensures var values := ValuesAt(old(formData), definition.arrays[k].binding);
              dataChanged == !JsonEqual(values[i], values[j])
    {
      var binding := definition.arrays[k].binding;
      ItemsMeanAnArray(definition, Now(), k);
      PresentArraysHold(definition, Now(), k);
      SwappedHalves(definition, Now(), k, i, j);
      var values := ValuesAt(formData, binding);
      HoldsAnyArray(definition, Now(), k, Array(SwapAt(values, i, j)));
      hide SetBound, SwapAt, ValuesAt, Sound, JsonEqual, WellFormedDefinition;
      dataChanged := !JsonEqual(values[i], values[j]);
      formData := SetBound(formData, binding, Array(SwapAt(values, i, j))).value;
      arrays := arrays[k := arrays[k].(items := SwapAt(arrays[k].items, i, j))];
      if dataChanged {
        externalFindingBatches := [];
        dataRevision := dataRevision + 1;
      }
      stateRevision := stateRevision + 1;
    }

    method ToggleArrayChoice(binding: Pointer, value: Json) returns (r: Result<Toggled, EditError>)
      requires Valid()
      modifies this
      ensures Valid() && (old(KeepsInput()) ==> KeepsInput())
      ensures (Now(), r) == Toggle(definition, old(Now()), binding, value)
    {
      ToggleIsSound(definition, Now(), binding, value);
      if !CanToggle(definition, Now(), binding) {
        return Err(OperationNotAllowed);
      }
      var k := ArrayIndex(definition.arrays, binding).value;
      var options := definition.arrays[k].Options();
      var o := OptionIndex(options, value);
      if o.None? {
        return Err(OperationNotAllowed);
      }
      var option := options[o.value];
      var carrying := CarryingIndices(ValuesAt(formData, binding), option);
      CarriersAreFound(definition, Now(), k, option);
      TogglableHolds(definition, Now(), binding);
      hide CarryingOf, ValuesAt, CanToggle, OptionIndex, Carries, InsertedRow, CanHoldArray, Sound, Honest, JsonEqual;
      if carrying == [] {
        var inserted := IncludeOption(k, o.value);
        return Ok(Included(inserted));
      } else {
        var removed, shifted := ExcludeOption(k, option, carrying);
        return Ok(Excluded(removed, shifted));
      }
    }

    /** Inserts an option that is no member yet, in option order. */
    method IncludeOption(k: nat, o: nat) returns (inserted: Inserted)
      requires Valid() && k < |definition.arrays| && o < |definition.arrays[k].Options()|
      requires CanHoldArray(definition, Now(), k)
      modifies this
      ensures var options, rows := definition.arrays[k].Options(), old(Rows(definition, Now(), k));
              && Now() == InsertedRow(definition, old(Now()), k, Toggles.Place(options, o, rows), options[o])
              && inserted == Inserted(old(nextItemIdentity), RowIds(rows[Toggles.Place(options, o, rows)..]))
      ensures Valid() && (old(KeepsInput()) ==> KeepsInput())
    {
      var options := definition.arrays[k].Options();
      var at := PlaceOf(options, o, ValuesAt(formData, definition.arrays[k].binding));
      PlaceInRows(definition, Now(), k, o);
      var identity := nextItemIdentity;
      InsertedItems(definition, Now(), k, at, options[o]);
      hide InsertedRow, CanHoldArray, ValuesAt, Rows, Sound, Honest;
      InsertItem(k, at, options[o]);
      inserted := Inserted(identity, Ids(arrays[k].items[at + 1..]));
    }

    /** Stores new values and items in both structures. */
    method StoreRows(k: nat, values: seq<Json>, items: seq<Item>)
      requires k < |definition.arrays| && k < |arrays|
      requires SetBound(formData, definition.arrays[k].binding, Array(values)).Some?
      modifies this
      ensures Now() == DataChanged(old(Now()).(
                         data := SetBound(old(formData), definition.arrays[k].binding, Array(values)).value,
                         arrays := old(arrays)[k := old(arrays)[k].(items := items)]))
    {
      hide SetBound;
      formData := SetBound(formData, definition.arrays[k].binding, Array(values)).value;
      arrays := arrays[k := arrays[k].(items := items)];
      RecordDataChange();
    }

    /** Removes every item that carries a value. */
    method ExcludeOption(k: nat, option: Json, carrying: seq<nat>) returns (removed: seq<nat>, shifted: seq<nat>)
      requires Shaped(definition, Now()) && Aligned(definition, Now())
      requires k < |definition.arrays| && CanHoldArray(definition, Now(), k)
      requires carrying != [] && carrying == CarryingOf(ValuesAt(formData, definition.arrays[k].binding), option)
      modifies this
      ensures IsExclusion(definition, old(Now()), k, option, Now(), removed, shifted)
    {
      var binding := definition.arrays[k].binding;
      var keptValues, keptItems;
      keptValues, keptItems, removed := RemoveCarriers(ValuesAt(formData, binding), arrays[k].items, option, carrying);
      StoredIsExclusion(definition, Now(), k, option, keptItems, keptValues, removed);
      hide SetBound, ValuesAt, CarryingOf, With, Without, JsonEqual, WellFormedDefinition, CanHoldArray, IsExclusion;
      shifted := Ids(keptItems[carrying[0]..]);
      StoreRows(k, keptValues, keptItems);
    }

    // --------------------------------------------------------------------------- controls

    /** Writes the edit state of a located control. */
    method StoreEdit(place: ControlEdits.Place, edit: EditState)
      requires Shaped(definition, Now()) && Exists(definition, Now(), place)
      modifies this`controls, this`arrays
      ensures Now() == WithEdit(definition, old(Now()), place, edit)
    {
      match place
      case Static(c) => controls := controls[c := edit];
      case InItem(k, i, c) => arrays := WithItemEdit(arrays, k, i, c, edit);
    }

    method EditText(binding: Pointer, input: Bytes) returns (r: Result<(), EditError>)
      requires Valid() && |input| <= I64_MAX
      modifies this
      ensures Valid() && (old(KeepsInput()) ==> KeepsInput())
      ensures (Now(), r) == ControlEdits.EditText(definition, old(Now()), binding, input, DEFAULT_INTEGER_DIGITS)
    {
      r := EditTextWithIntegerDigitLimit(binding, input, DEFAULT_INTEGER_DIGITS);
    }

    method EditTextWithIntegerDigitLimit(binding: Pointer, input: Bytes, maximumDigits: nat) returns (r: Result<(), EditError>)
      requires Valid() && |input| <= I64_MAX
      modifies this
      ensures Valid() && (old(KeepsInput()) ==> KeepsInput())
      ensures (Now(), r) == ControlEdits.EditText(definition, old(Now()), binding, input, maximumDigits)
    {
      EditTextIsSound(definition, Now(), binding, input, maximumDigits);
      hide Sound, Honest, ControlEdits.EditText, WellFormedDefinition;
      r := StoreText(binding, input, maximumDigits);
    }

    /** What the edit does to the fields. */
    method StoreText(binding: Pointer, input: Bytes, maximumDigits: nat) returns (r: Result<(), EditError>)
      requires Shaped(definition, Now()) && |input| <= I64_MAX
      modifies this
      ensures (Now(), r) == ControlEdits.EditText(definition, old(Now()), binding, input, maximumDigits)
    {
      var refusal := TextRefusal(definition, Now(), binding);
      if refusal.Some? {
        return Err(refusal.value);
      }
      var place := Locate(definition, Now(), binding).value;
      var control := ControlAt(definition, place);
      var parsed := ReadText(control.kind, input, maximumDigits);
      var current := Resolve(formData, binding);
      var dataChanged := parsed.Ok? && !AlreadyThere(control.kind, current, parsed.value);
      var previous := EditAt(definition, Now(), place);
      var edit := previous.(buffer := Some(input), blocker := if parsed.Ok? then None else Some(parsed.error));
      hide TextRefusal, Locate, AlreadyThere, SetBound, Resolve, ParseText, TypedInto;
      if dataChanged {
        AcceptedTextHasAPlace(definition, Now(), binding, parsed.value);
      }
      StoreInput(place, if dataChanged then Some(parsed.value) else None, edit);
      return Ok(());
    }

    /** Stores a typed edit state, and the value that replaces the data if there is one. */
    method StoreInput(place: ControlEdits.Place, replacement: Option<Json>, edit: EditState)
      requires Shaped(definition, Now()) && Exists(definition, Now(), place)
      requires replacement.Some? ==> SetBound(formData, BindingOf(definition, place), replacement.value).Some?
      requires edit.touched == EditAt(definition, Now(), place).touched
      modifies this
      ensures Now() == TypedInto(definition, old(Now()), place, replacement, edit)
    {
      var previous := EditAt(definition, Now(), place);
      StoringTheSame(definition, Now(), place, previous);
      hide SetBound;
      if replacement.Some? {
        formData := SetBound(formData, BindingOf(definition, place), replacement.value).value;
      }
      StoreEdit(place, edit);
      if replacement.Some? {
        externalFindingBatches := [];
        dataRevision := dataRevision + 1;
      }
      if replacement.Some? || previous.buffer != edit.buffer || previous.blocker != edit.blocker {
        stateRevision := stateRevision + 1;
      }
    }

    method SetValue(binding: Pointer, value: Json) returns (r: Result<(), EditError>)
      requires Valid()
      modifies this
      ensures Valid() && (old(KeepsInput()) ==> KeepsInput())
      ensures (Now(), r) == ControlEdits.SetValue(definition, old(Now()), binding, value)
    {
      SetValueIsSound(definition, Now(), binding, value);
      var place := Locate(definition, Now(), binding);
      if place.None? {
        return Err(UnknownControl);
      }
      var control := ControlAt(definition, place.value);
      if !IsCompatible(control, value) {
        return Err(OperationNotAllowed);
      }
      var spelled := Spelling(control.choices, value);
      var current := Resolve(formData, binding);
      if current.Some? && JsonEqual(current.value, spelled) {
        return Ok(());
      }
      var written := SetBound(formData, binding, spelled);
      if written.None? {
        return Err(UnresolvedControl);
      }
      hide Sound, Honest, Locate, SetBound, Resolve, JsonEqual, Spelling, IsCompatible, WellFormedDefinition, Aligned;
      var edit := EditAt(definition, Now(), place.value);
      formData := written.value;
      StoreEdit(place.value, Cleared(edit));
      RecordDataChange();
      return Ok(());
    }

    method Blur(binding: Pointer) returns (r: Result<(), EditError>)
      requires Valid()
      modifies this
      ensures Valid() && (old(KeepsInput()) ==> KeepsInput())
      ensures (Now(), r) == ControlEdits.Blur(definition, old(Now()), binding)
    {
      BlurIsSound(definition, Now(), binding);
      hide Sound, Honest, ControlEdits.Blur, WellFormedDefinition;
      r := LeaveBinding(binding);
    }

    /** What leaving does to the fields. */
    method LeaveBinding(binding: Pointer) returns (r: Result<(), EditError>)
      requires Shaped(definition, Now())
      modifies this
      ensures (Now(), r) == ControlEdits.Blur(definition, old(Now()), binding)
    {
      var place := Locate(definition, Now(), binding);
      hide Locate;
      if place.None? {
        r := BlurArray(binding);
        return;
      }
      var edit := EditAt(definition, Now(), place.value);
      var changed := (edit.blocker.None? && edit.buffer.Some?) || !edit.touched;
      StoringTheSame(definition, Now(), place.value, edit);
      StoreEdit(place.value, Finalized(edit).(touched := true));
      if changed {
        stateRevision := stateRevision + 1;
      }
      return Ok(());
    }

    /** Only a multiple choice can itself be left. */
    method BlurArray(binding: Pointer) returns (r: Result<(), EditError>)
      requires Shaped(definition, Now()) && Locate(definition, Now(), binding).None?
      modifies this`arrays, this`stateRevision
      ensures (Now(), r) == ControlEdits.Blur(definition, old(Now()), binding)
    {
      var k := ArrayIndex(definition.arrays, binding);
      if k.None? || !definition.arrays[k.value].IsMultipleChoice() {
        return Err(UnknownControl);
      }
      if !arrays[k.value].touched {
        arrays := arrays[k.value := arrays[k.value].(touched := true)];
        stateRevision := stateRevision + 1;
      }
      return Ok(());
    }

    // -------------------------------------------------------------------------- structures

    /** New data, and new items in every array that may have been written. */
    method StoreStructure(at: Pointer, data: Json)
      requires Shaped(definition, Now())
      modifies this`formData, this`arrays, this`nextItemIdentity
      ensures Shaped(definition, Now()) && Now() == Restructured(definition, old(Now()), at, data)
    {
      RestructuredIsShaped(definition, Now(), at, data);
      formData := data;
      hide Planned;
      arrays, nextItemIdentity := ReconcileArrays(definition, arrays, at, formData, nextItemIdentity);
    }

    /** Clears the edit state of every control at or below a place. */
    method ClearEditsBelow(at: Pointer)
      requires Shaped(definition, Now())
      modifies this`controls, this`arrays
      ensures Now() == ClearedBelow(definition, old(Now()), at)
    {
      var edits := ClearEdits(definition.controls, controls, [], at);
      var cleared := ClearArrays(definition, Now(), at);
      controls, arrays := edits, cleared;
    }

    method MaterializeStructure(at: Pointer, seed: Json) returns (r: Result<(), EditError>)
      requires Valid()
      modifies this
      ensures Valid() && (old(KeepsInput()) ==> KeepsInput())
      ensures (Now(), r) == Materialize(definition, old(Now()), at, seed)
    {
      MaterializeIsSound(definition, Now(), at, seed);
      hide Honest, Restructured, Aligned, Identified, Current;
      if Resolve(formData, at).Some? || !(seed.Object? || seed.Array?) {
        return Err(OperationNotAllowed);
      }
      var written := SetBound(formData, at, seed);
      if written.None? {
        return Err(UnresolvedControl);
      }
      StoreStructure(at, written.value);
      RecordDataChange();
      return Ok(());
    }

    method ReplaceStructure(at: Pointer, value: Json) returns (r: Result<(), EditError>)
      requires Valid()
      modifies this
      ensures Valid() && (old(KeepsInput()) ==> KeepsInput())
      ensures (Now(), r) == Structures.ReplaceStructure(definition, old(Now()), at, value)
    {
      ReplaceStructureIsSound(definition, Now(), at, value);
      hide Honest, Restructured, ClearedBelow, Aligned, Identified, Current, MayReplaceStructure;
      if !MayReplaceStructure(definition, Now(), at, value) {
        return Err(OperationNotAllowed);
      }
      var written := SetBound(formData, at, value);
      if written.None? {
        return Err(UnresolvedControl);
      }
      StoreStructure(at, written.value);
      ClearEditsBelow(at);
      RecordDataChange();
      return Ok(());
    }

    method RemoveValue(at: Pointer) returns (r: Result<(), EditError>)
      requires Valid()
      modifies this
      ensures Valid() && (old(KeepsInput()) ==> KeepsInput())
      ensures (Now(), r) == Structures.RemoveValue(definition, old(Now()), at)
    {
      RemoveValueIsSound(definition, Now(), at);
      hide Honest, Restructured, ClearedBelow, Aligned, Identified, Current;
      var taken := TakeBound(formData, at);
      if taken.None? {
        return Err(UnresolvedControl);
      }
      StoreStructure(at, taken.value);
      RecordDataChange();
      ClearEditsBelow(at);
      return Ok(());
    }

    // --------------------------------------------------------------------------- findings

    method ApplyExternalFindings(source: Bytes, dataRevision: nat, findings: seq<Finding>)
      returns (r: Result<(), ApplyFindingsError>)
      requires Valid()
      modifies this
      ensures Valid() && (old(KeepsInput()) ==> KeepsInput())
      ensures (Now(), r) == ApplyFindings(old(Now()), source, dataRevision, findings)
    {
      ApplyFindingsIsSound(definition, Now(), source, dataRevision, findings);
      hide Sound, Honest, Normalized, InsertBatch, WellFormedDefinition;
      if dataRevision != this.dataRevision {
        return Err(StaleDataRevision(this.dataRevision, dataRevision));
      }
      var normalized := Normalized(findings);
      var existing := BatchIndex(externalFindingBatches, source);
      if normalized == [] {
        if existing.Some? {
          externalFindingBatches := RemoveAt(externalFindingBatches, existing.value);
          stateRevision := stateRevision + 1;
        }
        return Ok(());
      }
      var batch := Batch(source, dataRevision, normalized);
      if existing.Some? {
        if externalFindingBatches[existing.value] == batch {
          return Ok(());
        }
        externalFindingBatches := externalFindingBatches[existing.value := batch];
      } else {
        externalFindingBatches := InsertBatch(externalFindingBatches, batch);
      }
      stateRevision := stateRevision + 1;
      return Ok(());
    }

    // -------------------------------------------------------------------------- lifecycle

    method Reset()
      requires Valid()
      modifies this
      ensures Valid() && KeepsInput()
      ensures Now() == Lifecycle.Reset(definition, old(Now()))
    {
      ResetIsSound(definition, Now());
      hide Sound, Honest, Lifecycle.Reset, WellFormedDefinition;
      RestoreAll();
    }

    /** What the reset does to the fields. */
    method RestoreAll()
      requires Shaped(definition, Now())
      modifies this
      ensures Now() == Lifecycle.Reset(definition, old(Now()))
    {
      hide JsonEqual, AnyEdited, AnyTouched;
      ghost var before := Now();
      var dataChanged := !JsonEqual(formData, baseline);
      var topologyChanged := LiveIds(arrays) != baselineArrayIdentities;
      var edited, touched;
      var stateChanged := dataChanged || topologyChanged || submissionAttempted;
      controls, edited := ClearLifecycle(controls);
      var cleared;
      cleared, touched := ClearArrayLifecycles(arrays);
      stateChanged := stateChanged || edited || touched;
      if dataChanged {
        formData := baseline;
        dataRevision := dataRevision + 1;
        externalFindingBatches := [];
      }
      if topologyChanged {
        cleared := RestoreBaseline(cleared);
      } else {
        ClearedIsBaseline(definition, before, cleared);
      }
      assert cleared == BaselineArrays(definition, before);
      arrays := cleared;
      submissionAttempted := false;
      if stateChanged {
        stateRevision := stateRevision + 1;
      }
    }

    /** Exactly the items of the baseline, newly made. */
    method RestoreBaseline(cleared: seq<ArrayState>) returns (restored: seq<ArrayState>)
      requires |cleared| == |definition.arrays| == |baselineArrayIdentities|
      requires forall k | 0 <= k < |cleared| :: !cleared[k].touched
      ensures |restored| == |definition.arrays|
      ensures forall k | 0 <= k < |restored| ::
                restored[k] == ArrayState(ItemsWithIds(definition.arrays[k], baselineArrayIdentities[k]), false)
    {
      restored := cleared;
      for k := 0 to |cleared|
        invariant |restored| == |cleared|
        invariant forall l | 0 <= l < k ::
                    restored[l] == ArrayState(ItemsWithIds(definition.arrays[l], baselineArrayIdentities[l]), false)
        invariant forall l | k <= l < |cleared| :: restored[l] == cleared[l]
      {
        restored := restored[k := restored[k].(items := ItemsWithIds(definition.arrays[k], baselineArrayIdentities[k]))];
      }
    }

    method Reinitialize(data: Json) returns (r: Result<(), CreateFormError>)
      requires Valid()
      modifies this
      ensures Valid() && (old(KeepsInput()) ==> KeepsInput())
      ensures (Now(), r) == Lifecycle.Reinitialize(definition, old(Now()), data)
    {
      ReinitializeIsSound(definition, Now(), data);
      hide Sound, Honest, WellFormedDefinition, FreshArrays, JsonEqual;
      if !data.Object? {
        return Err(FormDataMustBeObject);
      }
      StartOver(data);
      return Ok(());
    }

    /** What the new baseline does to the fields. */
    method StartOver(data: Json)
      requires Shaped(definition, Now()) && data.Object?
      modifies this
      ensures Now() == Lifecycle.Reinitialize(definition, old(Now()), data).0
    {
      hide JsonEqual, FreshArrays, AnyEdited;
      var dataChanged := !JsonEqual(formData, data);
      var edited;
      controls, edited := ClearLifecycle(controls);
      arrays, nextItemIdentity := RenewArrays(definition, data, nextItemIdentity);
      baselineArrayIdentities := LiveIds(arrays);
      if dataChanged {
        formData := data;
      }
      baseline := data;
      submissionAttempted := false;
      RecordDataChange();
    }

    method ReplaceFormData(data: Json) returns (r: Result<(), CreateFormError>)
      requires Valid()
      modifies this
      ensures Valid() && (old(KeepsInput()) ==> KeepsInput())
      ensures (Now(), r) == HostTransactions.ReplaceFormData(definition, old(Now()), data)
    {
      ReplaceFormDataIsSound(definition, Now(), data);
      var changes := ReplacementChanges(definition, Now(), data);
      hide HostTransaction;
      r := ApplyHostTransaction(data, [[]], changes, []);
    }

    /** Honesty is kept if and only if the transaction covers what it changes. */
    method ApplyHostTransaction(data: Json, writes: seq<Pointer>, changes: seq<HostChange>, itemWrites: seq<ItemWrite>)
      returns (r: Result<(), CreateFormError>)
      requires Valid()
      modifies this
      ensures Valid()
      ensures (Now(), r) == HostTransaction(definition, old(Now()), data, writes, changes, itemWrites)
      ensures r.Ok? ==> WellFormedTransaction(definition, old(Now()), data, changes)
      ensures r.Ok? && old(KeepsInput()) ==>
                (KeepsInput() <==> WritesCover(definition, old(Now()), data, writes, changes, itemWrites))
    {
      ghost var before := Now();
      HostTransactionIsSound(definition, Now(), data, writes, changes, itemWrites);
      if HostTransaction(definition, Now(), data, writes, changes, itemWrites).1.Ok? {
        KeptWhenCovered(definition, Now(), data, writes, changes, itemWrites);
      }
      hide Sound, Honest, HostTransaction, WellFormedDefinition, WritesCover, WellFormedTransaction;
      r := Commit(data, writes, changes, itemWrites);
    }

    /** What the transaction does to the fields. */
    method Commit(data: Json, writes: seq<Pointer>, changes: seq<HostChange>, itemWrites: seq<ItemWrite>)
      returns (r: Result<(), CreateFormError>)
      requires Shaped(definition, Now()) && Identified(Now())
      modifies this
      ensures (Now(), r) == HostTransaction(definition, old(Now()), data, writes, changes, itemWrites)
    {
      ghost var before := Now();
      if !WellFormedTransaction(definition, Now(), data, changes) {
        return Err(FormDataMustBeObject);
      }
      assert AllShaped(definition.arrays, arrays);
      var edits, edited := ClearWritten(definition.controls, controls, writes);
      var cleared, live, touched := WriteItems(definition.arrays, arrays, itemWrites);
      ItemWritesOnlyClear(definition.arrays, arrays, itemWrites);
      PlansAreFeasible(definition, before, data, changes, cleared);
      ClearedKeepIds(arrays, cleared);
      hide WellFormedTransaction, ClearedByItemWrites, ClearedByWrites, Committed, OnlyCleared, DistinctBelow, AllFeasible,
           AllShaped;
      if !live {
        controls, arrays := edits, cleared;
        return Err(FormDataMustBeObject);
      }
      Install(data, edits, edited, cleared, touched, changes);
      return Ok(());
    }

    /** Installs the new data and rebuilds the arrays, once the written buffers are cleared. */
    method Install(data: Json, edits: seq<EditState>, edited: bool, cleared: seq<ArrayState>, touched: bool,
                   changes: seq<HostChange>)
      requires Shaped(definition, Now()) && |cleared| == |definition.arrays| == |changes| && OnlyCleared(arrays, cleared)
      requires AllFeasible(cleared, PlansOf(arrays, changes)) && AllShaped(definition.arrays, cleared)
      requires DistinctBelow(LiveIds(cleared), nextItemIdentity)
      requires edited == (edits != controls) && touched == (cleared != arrays)
      modifies this
      ensures Now() == Committed(definition, old(Now()), data, edits, cleared, changes)
    {
      ghost var former := arrays;
      hide JsonEqual, AnyMoved, Planned, OnlyCleared, DistinctBelow, AllFeasible, AllShaped;
      var dataChanged := !JsonEqual(formData, data);
      var topologyChanged := AnyMoved(PlansOf(arrays, changes));
      controls := edits;
      if dataChanged {
        formData := data;
        externalFindingBatches := [];
        dataRevision := dataRevision + 1;
      }
      arrays, nextItemIdentity := RebuildArrays(definition, cleared, former, changes, formData, nextItemIdentity);
      if dataChanged || topologyChanged || edited || touched {
        stateRevision := stateRevision + 1;
      }
    }

    method PrepareSubmission() returns (r: Result<Snapshot, seq<Blocker>>)
      requires Valid()
      modifies this
      ensures Valid() && (old(KeepsInput()) ==> KeepsInput())
      ensures (Now(), r) == Lifecycle.PrepareSubmission(definition, old(Now()))
    {
      PrepareSubmissionIsSound(definition, Now());
      hide Sound, Honest, Lifecycle.PrepareSubmission, WellFormedDefinition;
      r := LeaveAll();
    }

    /** What submitting does to the fields. */
    method LeaveAll() returns (r: Result<Snapshot, seq<Blocker>>)
      requires Shaped(definition, Now())
      modifies this
      ensures (Now(), r) == Lifecycle.PrepareSubmission(definition, old(Now()))
    {
      hide FinalizedEdits, FinalizedArrays, Blockers;
      var blockers := Blockers(definition, Now());
      var stateChanged := !submissionAttempted;
      submissionAttempted := true;
      var edited, touched;
      controls, edited := FinalizeEdits(controls);
      arrays, touched := FinalizeArrays(arrays);
      if stateChanged || edited || touched {
        stateRevision := stateRevision + 1;
      }
      if blockers == [] {
        return Ok(Snapshot(formData, dataRevision));
      }
      return Err(blockers);
    }

    method MarkStateChanged()
      requires Valid()
      modifies this
      ensures Valid() && (old(KeepsInput()) ==> KeepsInput())
      ensures Now() == old(Now()).(stateRevision := old(stateRevision) + 1)
    {
      ghost var before := Now();
      stateRevision := stateRevision + 1;
      SameFormIsHonest(definition, before, Now());
    }
  }

  lemma StoringTheSame(d: Definition, s: State, place: ControlEdits.Place, edit: EditState)
    requires Shaped(d, s) && Exists(d, s, place) && edit == EditAt(d, s, place)
    ensures WithEdit(d, s, place, edit) == s
  {
    if place.InItem? {
      var InItem(k, i, c) := place;
      assert s.arrays[k].items[i].edits[c := edit] == s.arrays[k].items[i].edits;
      assert s.arrays[k].items[i := s.arrays[k].items[i]] == s.arrays[k].items;
      assert s.arrays[k := s.arrays[k]] == s.arrays;
    } else {
      assert s.edits[place.control := edit] == s.edits;
    }
  }

  /** With the topology unchanged, clearing leaves exactly the baseline's items. */
  lemma ClearedIsBaseline(d: Definition, s: State, cleared: seq<ArrayState>)
    requires Shaped(d, s) && LiveIds(s.arrays) == s.baselineIds && |cleared| == |s.arrays|
    requires forall k | 0 <= k < |s.arrays| :: !cleared[k].touched && |cleared[k].items| == |s.arrays[k].items|
               && forall i | 0 <= i < |s.arrays[k].items| ::
                    cleared[k].items[i] == Item(s.arrays[k].items[i].identity, UntouchedEdits(|s.arrays[k].items[i].edits|))
    ensures cleared == BaselineArrays(d, s)
  {
    forall k | 0 <= k < |cleared| ensures cleared[k] == BaselineArrays(d, s)[k] {
      assert Ids(s.arrays[k].items) == s.baselineIds[k];
      assert cleared[k].items == ItemsWithIds(d.arrays[k], s.baselineIds[k]);
    }
  }

  lemma KeptWhenCovered(d: Definition, s: State, data: Json, writes: seq<Pointer>, changes: seq<HostChange>,
                        itemWrites: seq<ItemWrite>)
    requires Sound(d, s) && HostTransaction(d, s, data, writes, changes, itemWrites).1.Ok?
    ensures Sound(d, HostTransaction(d, s, data, writes, changes, itemWrites).0)
    ensures WellFormedTransaction(d, s, data, changes)
    ensures Honest(d, s) ==> (Honest(d, HostTransaction(d, s, data, writes, changes, itemWrites).0)
                              <==> WritesCover(d, s, data, writes, changes, itemWrites))
  {
    HostTransactionIsSound(d, s, data, writes, changes, itemWrites);
    SuccessUnfolds(d, s, data, writes, changes, itemWrites);
    hide HostTransaction, Sound, WritesCover, Honest, WellFormedTransaction;
    if Honest(d, s) {
      HonestWhenCovered(d, s, data, writes, changes, itemWrites);
    }
  }
}
