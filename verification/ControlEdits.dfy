/** Typing into a control, setting its value, and leaving it. */
module ControlEdits {
  import opened Bytes
  import opened Decimal
  import opened Numbers
  import opened Json
  import opened FormModel
  import opened DataWrites
  import opened TextInput
  import opened ArrayOperations
  import opened Toggles

  // -------------------------------------------------------------------------- finding a control

  /** Where a control lives: on its own, or in an item of an array. */
  datatype Place = Static(control: nat) | InItem(list: nat, item: nat, control: nat)

  function ControlIndex(controls: seq<ControlDefinition>, base: Pointer, binding: Pointer): (c: Option<nat>)
    ensures c.Some? ==> c.value < |controls| && base + controls[c.value].binding == binding
    ensures c.None? ==> forall i | 0 <= i < |controls| :: base + controls[i].binding != binding
  {
    if controls == [] then None
    else if base + controls[0].binding == binding then Some(0)
    else
      var rest := ControlIndex(controls[1..], base, binding);
      if rest.None? then None else Some(rest.value + 1)
  }

  /** The first item, from one on, with a control bound there. */
  function FindInItems(list: ArrayDefinition, count: nat, from: nat, binding: Pointer): (found: Option<(nat, nat)>)
    requires from <= count
    ensures found.Some? ==>
              && found.value.0 < count && found.value.1 < |list.controls|
              && ItemPointer(list.binding, found.value.0) + list.controls[found.value.1].binding == binding
    decreases count - from
  {
    if from == count then None
    else
      var c := ControlIndex(list.controls, ItemPointer(list.binding, from), binding);
      if c.Some? then Some((from, c.value)) else FindInItems(list, count, from + 1, binding)
  }

  function FindInArrays(lists: seq<ArrayDefinition>, arrays: seq<ArrayState>, from: nat, binding: Pointer): (place: Option<Place>)
    requires |lists| == |arrays| && from <= |lists|
    ensures place.Some? ==>
              && place.value.InItem? && place.value.list < |lists|
              && place.value.item < |arrays[place.value.list].items|
              && place.value.control < |lists[place.value.list].controls|
              && ItemPointer(lists[place.value.list].binding, place.value.item)
                 + lists[place.value.list].controls[place.value.control].binding == binding
    decreases |lists| - from
  {
    if from == |lists| then None
    else
      var found := FindInItems(lists[from], |arrays[from].items|, 0, binding);
      if found.Some? then Some(InItem(from, found.value.0, found.value.1))
      else FindInArrays(lists, arrays, from + 1, binding)
  }

  /** `control_location`. */
  function Locate(d: Definition, s: State, binding: Pointer): (place: Option<Place>)
    requires Shaped(d, s)
    ensures place.Some? ==> Exists(d, s, place.value) && BindingOf(d, place.value) == binding
  {
    var c := ControlIndex(d.controls, [], binding);
    if c.Some? then
      assert [] + d.controls[c.value].binding == d.controls[c.value].binding;
      Some(Static(c.value))
    else FindInArrays(d.arrays, s.arrays, 0, binding)
  }

  predicate Exists(d: Definition, s: State, place: Place) {
    match place
    case Static(c) => c < |d.controls|
    case InItem(k, i, c) =>
      k < |d.arrays| && k < |s.arrays| && i < |s.arrays[k].items| && c < |d.arrays[k].controls|
  }

  predicate InDefinition(d: Definition, place: Place) {
    match place
    case Static(c) => c < |d.controls|
    case InItem(k, _, c) => k < |d.arrays| && c < |d.arrays[k].controls|
  }

  function ControlAt(d: Definition, place: Place): ControlDefinition
    requires InDefinition(d, place)
  {
    match place
    case Static(c) => d.controls[c]
    case InItem(k, _, c) => d.arrays[k].controls[c]
  }

  function BindingOf(d: Definition, place: Place): Pointer
    requires InDefinition(d, place)
  {
    match place
    case Static(c) => d.controls[c].binding
    case InItem(k, i, c) => ItemPointer(d.arrays[k].binding, i) + d.arrays[k].controls[c].binding
  }

  function EditAt(d: Definition, s: State, place: Place): EditState
    requires Shaped(d, s) && Exists(d, s, place)
  {
    match place
    case Static(c) => s.edits[c]
    case InItem(k, i, c) => s.arrays[k].items[i].edits[c]
  }

  function WithItemEdit(arrays: seq<ArrayState>, k: nat, i: nat, c: nat, edit: EditState): seq<ArrayState>
    requires k < |arrays| && i < |arrays[k].items| && c < |arrays[k].items[i].edits|
  {
    var item := arrays[k].items[i];
    arrays[k := arrays[k].(items := arrays[k].items[i := item.(edits := item.edits[c := edit])])]
  }

  function WithEdit(d: Definition, s: State, place: Place, edit: EditState): State
    requires Shaped(d, s) && Exists(d, s, place)
  {
    match place
    case Static(c) => s.(edits := s.edits[c := edit])
    case InItem(k, i, c) => s.(arrays := WithItemEdit(s.arrays, k, i, c, edit))
  }

  // ------------------------------------------------------------------ what setting one edit keeps

  lemma WithEditIsAligned(d: Definition, s: State, place: Place, edit: EditState)
    requires Shaped(d, s) && Exists(d, s, place)
    ensures Shaped(d, WithEdit(d, s, place, edit))
    ensures Aligned(d, s) ==> Aligned(d, WithEdit(d, s, place, edit))
    ensures LiveIds(WithEdit(d, s, place, edit).arrays) == LiveIds(s.arrays)
    ensures Identified(s) ==> Identified(WithEdit(d, s, place, edit))
  {
    var t := WithEdit(d, s, place, edit);
    forall k | 0 <= k < |s.arrays| ensures Ids(t.arrays[k].items) == Ids(s.arrays[k].items) {
    }
  }

  lemma WithEditIsHonest(d: Definition, s: State, place: Place, edit: EditState)
    requires Shaped(d, s) && Aligned(d, s) && Honest(d, s) && Exists(d, s, place)
    requires HonestEdit(ControlAt(d, place), edit, Resolve(s.data, BindingOf(d, place)))
    ensures Shaped(d, WithEdit(d, s, place, edit)) && Aligned(d, WithEdit(d, s, place, edit))
    ensures Honest(d, WithEdit(d, s, place, edit))
  {
    WithEditIsAligned(d, s, place, edit);
    hide HonestEdit, Resolve;
    var t := WithEdit(d, s, place, edit);
    if place.InItem? {
      var InItem(k, i, c) := place;
      ItemControlsResolveInItems(s.data, d.arrays[k].binding, i, d.arrays[k].controls[c].binding);
      assert Rows(d, t, k) == Rows(d, s, k)[i := Row(s.arrays[k].items[i].identity, t.arrays[k].items[i].edits,
                                                    ValuesAt(s.data, d.arrays[k].binding)[i])];
      forall l | 0 <= l < |d.arrays| && l != k ensures Rows(d, t, l) == Rows(d, s, l) {
      }
    } else {
      forall l | 0 <= l < |d.arrays| ensures Rows(d, t, l) == Rows(d, s, l) {
      }
    }
  }

  // ------------------------------------------------------------------- writing at one control

  /** No buffer of the form without a blocker sits at or below the pointer. */
  ghost predicate QuietAt(d: Definition, s: State, at: Pointer)
    requires Shaped(d, s)
  {
    && QuietBelow(d.controls, s.edits, [], at)
    && forall k, i | 0 <= k < |d.arrays| && 0 <= i < |s.arrays[k].items| ::
         QuietBelow(d.arrays[k].controls, s.arrays[k].items[i].edits, ItemPointer(d.arrays[k].binding, i), at)
  }

  ghost predicate BelowNoArray(d: Definition, at: Pointer) {
    forall k | 0 <= k < |d.arrays| :: !(at <= d.arrays[k].binding)
  }

  /** A write below or beside all arrays keeps every array aligned, and every buffer honest if none is at or below it. */
  lemma WriteStaysAligned(d: Definition, s: State, at: Pointer, data': Json)
    requires Shaped(d, s) && Aligned(d, s) && Rewrites(s.data, at, data') && BelowNoArray(d, at)
    ensures Shaped(d, s.(data := data')) && Aligned(d, s.(data := data'))
    ensures Honest(d, s) && QuietAt(d, s, at) ==> Honest(d, s.(data := data'))
  {
    hide Rewrites, HonestEdits, QuietBelow, ValuesAt, ItemPointer;
    forall k | 0 <= k < |d.arrays|
      ensures |ValuesAt(data', d.arrays[k].binding)| == |ValuesAt(s.data, d.arrays[k].binding)|
    {
      WritesKeepCounts(s.data, at, data', d.arrays[k].binding);
    }
    if Honest(d, s) && QuietAt(d, s, at) {
      WritesKeepEditsHonest(s.data, at, data', d.controls, s.edits);
      forall k, i | 0 <= k < |d.arrays| && 0 <= i < |s.arrays[k].items|
        ensures HonestRow(d.arrays[k], Rows(d, s.(data := data'), k)[i])
      {
        assert HonestRow(d.arrays[k], Rows(d, s, k)[i]);
        WritesKeepItemsHonest(s.data, at, data', d.arrays[k], s.arrays[k].items[i].edits, i);
      }
    }
  }

  /** An item control's binding leads through its array, and through no other binding. */
  lemma ItemBindingsStayApart(binding: Pointer, i: nat, relative: Pointer, other: Pointer)
    requires Apart(binding, other)
    ensures Apart(ItemPointer(binding, i) + relative, other)
  {
    var p := ItemPointer(binding, i) + relative;
    assert p[..|binding|] == binding;
  }

  lemma ApartIsSymmetric(p: Pointer, q: Pointer)
    ensures Apart(p, q) <==> Apart(q, p)
  {
  }

  lemma ItemsStayApart(binding: Pointer, i: nat, j: nat, p: Pointer, q: Pointer)
    requires i != j
    ensures Apart(ItemPointer(binding, i) + p, ItemPointer(binding, j) + q)
  {
    var left, right := ItemPointer(binding, i) + p, ItemPointer(binding, j) + q;
    assert left[|binding|] == NatText(i) && right[|binding|] == NatText(j);
    assert Val(NatText(i)) == i && Val(NatText(j)) == j;
  }

  lemma ExtendedStayApart(base: Pointer, p: Pointer, q: Pointer)
    requires Apart(p, q)
    ensures Apart(base + p, base + q)
  {
    assert (base + p)[|base|..] == p && (base + q)[|base|..] == q;
  }

  /** No two controls of a form, in whatever items, lead through each other. */
  lemma ControlsStayApart(d: Definition, p: Place, q: Place)
    requires WellFormedDefinition(d) && InDefinition(d, p) && InDefinition(d, q) && p != q
    ensures Apart(BindingOf(d, p), BindingOf(d, q))
  {
    hide ItemPointer;
    match (p, q)
    case (Static(a), Static(b)) => ApartIsSymmetric(d.controls[a].binding, d.controls[b].binding);
    case (Static(a), InItem(k, i, c)) =>
      ApartIsSymmetric(d.controls[a].binding, d.arrays[k].binding);
      ItemBindingsStayApart(d.arrays[k].binding, i, d.arrays[k].controls[c].binding, d.controls[a].binding);
      ApartIsSymmetric(BindingOf(d, p), BindingOf(d, q));
    case (InItem(k, i, c), Static(a)) =>
      ApartIsSymmetric(d.controls[a].binding, d.arrays[k].binding);
      ItemBindingsStayApart(d.arrays[k].binding, i, d.arrays[k].controls[c].binding, d.controls[a].binding);
    case (InItem(k, i, c), InItem(l, j, e)) =>
      if k != l {
        ApartIsSymmetric(d.arrays[k].binding, d.arrays[l].binding);
        ItemBindingsStayApart(d.arrays[l].binding, j, d.arrays[l].controls[e].binding, d.arrays[k].binding);
        ApartIsSymmetric(BindingOf(d, q), d.arrays[k].binding);
        ItemBindingsStayApart(d.arrays[k].binding, i, d.arrays[k].controls[c].binding, BindingOf(d, q));
      } else if i != j {
        ItemsStayApart(d.arrays[k].binding, i, j, d.arrays[k].controls[c].binding, d.arrays[l].controls[e].binding);
      } else {
        ApartIsSymmetric(d.arrays[k].controls[c].binding, d.arrays[k].controls[e].binding);
        ExtendedStayApart(ItemPointer(d.arrays[k].binding, i), d.arrays[k].controls[c].binding,
                          d.arrays[k].controls[e].binding);
      }
  }

  lemma ControlsSitBelowNoArray(d: Definition, p: Place)
    requires WellFormedDefinition(d) && InDefinition(d, p)
    ensures BelowNoArray(d, BindingOf(d, p))
  {
    forall l | 0 <= l < |d.arrays| ensures !(BindingOf(d, p) <= d.arrays[l].binding) {
      match p
      case Static(c) =>
      case InItem(k, i, c) =>
        if k != l {
          ApartIsSymmetric(d.arrays[k].binding, d.arrays[l].binding);
          ItemBindingsStayApart(d.arrays[k].binding, i, d.arrays[k].controls[c].binding, d.arrays[l].binding);
        }
    }
  }

  function Cleared(edit: EditState): EditState {
    edit.(buffer := None, blocker := None)
  }

  /** Once the control itself holds no buffer, nothing is in the way of a write to it. */
  lemma ClearedControlIsQuiet(d: Definition, s: State, place: Place)
    requires WellFormedDefinition(d) && Shaped(d, s) && Exists(d, s, place) && EditAt(d, s, place).buffer.None?
    ensures QuietAt(d, s, BindingOf(d, place))
  {
    var at := BindingOf(d, place);
    forall c | 0 <= c < |d.controls| && s.edits[c].buffer.Some? && s.edits[c].blocker.None?
      ensures !(at <= [] + d.controls[c].binding)
    {
      ControlsStayApart(d, place, Static(c));
      assert [] + d.controls[c].binding == d.controls[c].binding;
    }
    forall k, i | 0 <= k < |d.arrays| && 0 <= i < |s.arrays[k].items|
      ensures QuietBelow(d.arrays[k].controls, s.arrays[k].items[i].edits, ItemPointer(d.arrays[k].binding, i), at)
    {
      forall c | 0 <= c < |d.arrays[k].controls|
                 && s.arrays[k].items[i].edits[c].buffer.Some? && s.arrays[k].items[i].edits[c].blocker.None?
        ensures !(at <= ItemPointer(d.arrays[k].binding, i) + d.arrays[k].controls[c].binding)
      {
        ControlsStayApart(d, place, InItem(k, i, c));
      }
    }
  }

  /** The state after a value is written at a control, whose edit state becomes the given one. */
  function Written(d: Definition, s: State, place: Place, value: Json, edit: EditState): State
    requires Shaped(d, s) && Exists(d, s, place) && SetBound(s.data, BindingOf(d, place), value).Some?
  {
    WithEdit(d, s.(data := SetBound(s.data, BindingOf(d, place), value).value), place, edit)
  }

  lemma WrittenIsAligned(d: Definition, s: State, place: Place, value: Json, edit: EditState)
    requires WellFormedDefinition(d) && Shaped(d, s) && Aligned(d, s) && Exists(d, s, place)
    requires SetBound(s.data, BindingOf(d, place), value).Some?
    ensures Shaped(d, Written(d, s, place, value, edit)) && Aligned(d, Written(d, s, place, value, edit))
    ensures Identified(s) ==> Identified(Written(d, s, place, value, edit))
  {
    hide SetBound, BindingOf;
    var t := s.(data := SetBound(s.data, BindingOf(d, place), value).value);
    ControlsSitBelowNoArray(d, place);
    WriteStaysAligned(d, s, BindingOf(d, place), t.data);
    WithEditIsAligned(d, t, place, edit);
  }

  /** Writing at a control keeps every buffer honest, provided the control's new buffer stands for what is written. */
  lemma WrittenIsHonest(d: Definition, s: State, place: Place, value: Json, edit: EditState)
    requires WellFormedDefinition(d) && Shaped(d, s) && Aligned(d, s) && Honest(d, s) && Exists(d, s, place)
    requires SetBound(s.data, BindingOf(d, place), value).Some?
    requires HonestEdit(ControlAt(d, place), edit, Some(value))
    ensures Shaped(d, Written(d, s, place, value, edit)) && Aligned(d, Written(d, s, place, value, edit))
    ensures Honest(d, Written(d, s, place, value, edit))
  {
    WrittenIsAligned(d, s, place, value, edit);
    var quiet := Cleared(EditAt(d, s, place));
    var cleared := WithEdit(d, s, place, quiet);
    assert HonestEdit(ControlAt(d, place), quiet, Resolve(s.data, BindingOf(d, place)));
    hide HonestEdit, SetBound, Resolve, BindingOf, ControlAt, Honest;
    WithEditIsHonest(d, s, place, quiet);
    WithEditReads(d, s, place, quiet);
    ClearedControlIsQuiet(d, cleared, place);
    ControlsSitBelowNoArray(d, place);
    var data' := SetBound(s.data, BindingOf(d, place), value).value;
    WriteStaysAligned(d, cleared, BindingOf(d, place), data');
    SetBoundReadsBack(s.data, BindingOf(d, place), value);
    WithEditIsHonest(d, cleared.(data := data'), place, edit);
    WithEditOverwrites(d, s, place, quiet, edit, data');
  }

  lemma WithEditReads(d: Definition, s: State, place: Place, edit: EditState)
    requires Shaped(d, s) && Exists(d, s, place)
    ensures Shaped(d, WithEdit(d, s, place, edit)) && Exists(d, WithEdit(d, s, place, edit), place)
    ensures EditAt(d, WithEdit(d, s, place, edit), place) == edit && WithEdit(d, s, place, edit).data == s.data
  {
    WithEditIsAligned(d, s, place, edit);
  }

  lemma WithEditOverwrites(d: Definition, s: State, place: Place, first: EditState, second: EditState, data: Json)
    requires Shaped(d, s) && Exists(d, s, place)
    ensures Shaped(d, WithEdit(d, s, place, first)) && Exists(d, WithEdit(d, s, place, first), place)
    ensures WithEdit(d, WithEdit(d, s, place, first).(data := data), place, second)
         == WithEdit(d, s.(data := data), place, second)
  {
    WithEditReads(d, s, place, first);
    if place.InItem? {
      var InItem(k, i, c) := place;
      var once := WithItemEdit(s.arrays, k, i, c, first);
      assert once[k].items[i].edits[c := second] == s.arrays[k].items[i].edits[c := second];
      assert once[k].items[i := once[k].items[i].(edits := once[k].items[i].edits[c := second])]
          == s.arrays[k].items[i := s.arrays[k].items[i].(edits := s.arrays[k].items[i].edits[c := second])];
      assert WithItemEdit(once, k, i, c, second) == WithItemEdit(s.arrays, k, i, c, second);
    } else {
      assert s.edits[place.control := first][place.control := second] == s.edits[place.control := second];
    }
  }

  // ------------------------------------------------------------------------ the operations

  predicate IsOption(choices: seq<Json>, value: Json) {
    exists i | 0 <= i < |choices| :: JsonEqual(choices[i], value)
  }

  /** `control_value_is_compatible`. */
  predicate IsCompatible(control: ControlDefinition, value: Json) {
    if value.Null? then control.acceptsNull
    else
      match control.kind
      case StringControl => value.String?
      case NumberControl => value.Number?
      case IntegerControl => value.Number? && NumberIsInteger(value.text)
      case BooleanControl => value.Bool?
      case _ => IsOption(control.choices, value)
  }

  predicate TakesText(kind: ControlKind) {
    kind.StringControl? || kind.NumberControl? || kind.IntegerControl?
  }

  /** Whether what was read is what the data already holds. */
  predicate AlreadyThere(kind: ControlKind, current: Option<Json>, value: Json) {
    && current.Some?
    && (if kind.StringControl? then current.value == value
        else current.value == value || (current.value.Number? && value.Number? && NumbersEqual(current.value.text, value.text)))
  }

  /** The refusal of `prepare_text_edit`, if it refuses. */
  function TextRefusal(d: Definition, s: State, binding: Pointer): Option<EditError>
    requires Shaped(d, s)
  {
    var place, current := Locate(d, s, binding), Resolve(s.data, binding);
    if place.None? then Some(UnknownControl)
    else
      var control := ControlAt(d, place.value);
      if !TakesText(control.kind) then Some(OperationNotAllowed)
      else if current.Some? && !current.value.Null? && !IsCompatible(control, current.value) then Some(OperationNotAllowed)
      else if current.Some? && current.value.Null? && !control.acceptsNull then Some(OperationNotAllowed)
      else if current.None? && !ParentIsObject(s.data, binding) then Some(UnresolvedControl)
      else None
  }

  lemma AcceptedTextHasAPlace(d: Definition, s: State, binding: Pointer, value: Json)
    requires Shaped(d, s) && TextRefusal(d, s, binding).None?
    ensures SetBound(s.data, binding, value).Some?
  {
    WhereSetBoundSucceeds(s.data, binding, value);
  }

  /** A control's new edit state, with the value it stands for if that replaces the data. */
  function TypedInto(d: Definition, s: State, place: Place, replacement: Option<Json>, edit: EditState): State
    requires Shaped(d, s) && Exists(d, s, place)
    requires replacement.Some? ==> SetBound(s.data, BindingOf(d, place), replacement.value).Some?
  {
    if replacement.Some? then DataChanged(Written(d, s, place, replacement.value, edit))
    else if edit == EditAt(d, s, place) then s
    else WithEdit(d, s, place, edit).(stateRevision := s.stateRevision + 1)
  }

  /** `edit_text_with_integer_digit_limit`. */
  function EditText(d: Definition, s: State, binding: Pointer, input: Bytes, maximumDigits: nat): (State, Result<(), EditError>)
    requires Shaped(d, s)
  {
    if TextRefusal(d, s, binding).Some? then (s, Err(TextRefusal(d, s, binding).value))
    else
      var place := Locate(d, s, binding).value;
      var control, before := ControlAt(d, place), EditAt(d, s, place);
      var parsed := ParseText(control.kind, input, maximumDigits);
      var edit := before.(buffer := Some(input), blocker := if parsed.Ok? then None else Some(parsed.error));
      if parsed.Ok? && !AlreadyThere(control.kind, Resolve(s.data, binding), parsed.value) then
        AcceptedTextHasAPlace(d, s, binding, parsed.value);
        (TypedInto(d, s, place, Some(parsed.value), edit), Ok(()))
      else (TypedInto(d, s, place, None, edit), Ok(()))
  }

  /** The value as the control spells it: an option equal to it, or itself. */
  function Spelling(choices: seq<Json>, value: Json): Json {
    var o := OptionIndex(choices, value);
    if o.Some? then choices[o.value] else value
  }

  /** `set_value`. */
  function SetValue(d: Definition, s: State, binding: Pointer, value: Json): (State, Result<(), EditError>)
    requires Shaped(d, s)
  {
    var place := Locate(d, s, binding);
    if place.None? then (s, Err(UnknownControl))
    else
      var control := ControlAt(d, place.value);
      if !IsCompatible(control, value) then (s, Err(OperationNotAllowed))
      else
        var spelled, current := Spelling(control.choices, value), Resolve(s.data, binding);
        if current.Some? && JsonEqual(current.value, spelled) then (s, Ok(()))
        else if SetBound(s.data, binding, spelled).None? then (s, Err(UnresolvedControl))
        else (DataChanged(Written(d, s, place.value, spelled, Cleared(EditAt(d, s, place.value)))), Ok(()))
  }

  /** What leaving a control does to its edit state: a buffer without a blocker is dropped. */
  function Finalized(edit: EditState): EditState {
    if edit.blocker.None? then edit.(buffer := None) else edit
  }

  /** `blur`. */
  function Blur(d: Definition, s: State, binding: Pointer): (State, Result<(), EditError>)
    requires Shaped(d, s)
  {
    var place := Locate(d, s, binding);
    if place.Some? then
      var edit := EditAt(d, s, place.value);
      var left := Finalized(edit).(touched := true);
      (if left == edit then s else WithEdit(d, s, place.value, left).(stateRevision := s.stateRevision + 1), Ok(()))
    else
      var k := ArrayIndex(d.arrays, binding);
      if k.None? || !d.arrays[k.value].IsMultipleChoice() then (s, Err(UnknownControl))
      else if s.arrays[k.value].touched then (s, Ok(()))
      else
        (s.(arrays := s.arrays[k.value := s.arrays[k.value].(touched := true)], stateRevision := s.stateRevision + 1),
         Ok(()))
  }

  // ------------------------------------------------------------------ what the operations keep

  lemma AlreadyThereIsEqual(kind: ControlKind, current: Option<Json>, value: Json)
    requires AlreadyThere(kind, current, value)
    ensures current.Some? && JsonEqual(current.value, value)
  {
    hide NumbersEqual;
  }

  /** After typing, the buffer stands for the data, or a blocker says why it does not. */
  lemma TypedTextIsHonest(control: ControlDefinition, before: EditState, current: Option<Json>, input: Bytes, maximumDigits: nat)
    requires TakesText(control.kind)
    ensures var parsed := ParseText(control.kind, input, maximumDigits);
            var edit := before.(buffer := Some(input), blocker := if parsed.Ok? then None else Some(parsed.error));
            && (parsed.Ok? ==> HonestEdit(control, edit, Some(parsed.value)))
            && (parsed.Ok? && AlreadyThere(control.kind, current, parsed.value) ==> HonestEdit(control, edit, current))
            && (parsed.Err? ==> HonestEdit(control, edit, current))
  {
    hide ParseText, Meant, AlreadyThere, JsonEqual;
    var parsed := ParseText(control.kind, input, maximumDigits);
    if parsed.Ok? {
      ReadTextDenotes(control.kind, input, maximumDigits);
      if AlreadyThere(control.kind, current, parsed.value) {
        AlreadyThereIsEqual(control.kind, current, parsed.value);
        EqualIsTransitive(current.value, parsed.value, Meant(control.kind, input).value);
      }
    }
  }

  lemma TypedIntoIsSound(d: Definition, s: State, place: Place, replacement: Option<Json>, edit: EditState)
    requires WellFormedDefinition(d) && Sound(d, s) && Exists(d, s, place)
    requires replacement.Some? ==> SetBound(s.data, BindingOf(d, place), replacement.value).Some?
    requires HonestEdit(ControlAt(d, place), edit,
                        if replacement.Some? then replacement else Resolve(s.data, BindingOf(d, place)))
    ensures Sound(d, TypedInto(d, s, place, replacement, edit))
    ensures Honest(d, s) ==> Honest(d, TypedInto(d, s, place, replacement, edit))
  {
    hide HonestEdit, Resolve, HonestEdits, LiveIds, SetBound;
    if replacement.Some? {
      WrittenIsAligned(d, s, place, replacement.value, edit);
      ChangedIsSound(d, s, Written(d, s, place, replacement.value, edit));
      if Honest(d, s) {
        WrittenIsHonest(d, s, place, replacement.value, edit);
        ChangedIsHonest(d, Written(d, s, place, replacement.value, edit));
      }
    } else {
      EditedIsSound(d, s, place, edit);
    }
  }

  lemma EditTextIsSound(d: Definition, s: State, binding: Pointer, input: Bytes, maximumDigits: nat)
    requires WellFormedDefinition(d) && Sound(d, s)
    ensures Sound(d, EditText(d, s, binding, input, maximumDigits).0)
    ensures Honest(d, s) ==> Honest(d, EditText(d, s, binding, input, maximumDigits).0)
  {
    if TextRefusal(d, s, binding).None? {
      var place := Locate(d, s, binding).value;
      var control, before, current := ControlAt(d, place), EditAt(d, s, place), Resolve(s.data, binding);
      var parsed := ParseText(control.kind, input, maximumDigits);
      var edit := before.(buffer := Some(input), blocker := if parsed.Ok? then None else Some(parsed.error));
      var writes := parsed.Ok? && !AlreadyThere(control.kind, current, parsed.value);
      TypedTextIsHonest(control, before, current, input, maximumDigits);
      hide HonestEdit, ParseText, AlreadyThere, Resolve, Honest, TypedInto, WellFormedDefinition, SetBound;
      if writes {
        AcceptedTextHasAPlace(d, s, binding, parsed.value);
      }
      TypedIntoIsSound(d, s, place, if writes then Some(parsed.value) else None, edit);
    }
  }

  lemma ChangedIsSound(d: Definition, s: State, t: State)
    requires Shaped(d, t) && Aligned(d, t) && Identified(t)
    ensures Sound(d, DataChanged(t))
  {
  }

  lemma ChangedIsHonest(d: Definition, t: State)
    requires Shaped(d, t) && Aligned(d, t) && Honest(d, t)
    ensures Shaped(d, DataChanged(t)) && Aligned(d, DataChanged(t)) && Honest(d, DataChanged(t))
  {
    hide HonestEdits;
    forall k | 0 <= k < |d.arrays| ensures Rows(d, DataChanged(t), k) == Rows(d, t, k) {
    }
  }

  lemma EditedIsSound(d: Definition, s: State, place: Place, edit: EditState)
    requires Sound(d, s) && Exists(d, s, place)
    ensures var t := WithEdit(d, s, place, edit).(stateRevision := s.stateRevision + 1);
            && Sound(d, t)
            && (Honest(d, s) && HonestEdit(ControlAt(d, place), edit, Resolve(s.data, BindingOf(d, place))) ==> Honest(d, t))
  {
    var t := WithEdit(d, s, place, edit);
    WithEditIsAligned(d, s, place, edit);
    if Honest(d, s) && HonestEdit(ControlAt(d, place), edit, Resolve(s.data, BindingOf(d, place))) {
      WithEditIsHonest(d, s, place, edit);
      hide HonestEdits, WithEdit;
      forall k | 0 <= k < |d.arrays|
        ensures Rows(d, t.(stateRevision := s.stateRevision + 1), k) == Rows(d, t, k)
      {
      }
    }
    hide HonestEdits;
  }

  lemma SetValueIsSound(d: Definition, s: State, binding: Pointer, value: Json)
    requires WellFormedDefinition(d) && Sound(d, s)
    ensures Sound(d, SetValue(d, s, binding, value).0)
    ensures Honest(d, s) ==> Honest(d, SetValue(d, s, binding, value).0)
  {
    var t := SetValue(d, s, binding, value).0;
    if t != s {
      var place := Locate(d, s, binding).value;
      var control, before := ControlAt(d, place), EditAt(d, s, place);
      var spelled := Spelling(control.choices, value);
      assert HonestEdit(control, Cleared(before), Some(spelled));
      WrittenIsAligned(d, s, place, spelled, Cleared(before));
      ChangedIsSound(d, s, Written(d, s, place, spelled, Cleared(before)));
      if Honest(d, s) {
        WrittenIsHonest(d, s, place, spelled, Cleared(before));
        ChangedIsHonest(d, Written(d, s, place, spelled, Cleared(before)));
      }
      hide HonestEdit, HonestEdits, Resolve, Spelling, SetBound;
    }
  }

  lemma LeavingIsHonest(d: Definition, s: State, place: Place)
    requires Shaped(d, s) && Aligned(d, s) && Honest(d, s) && Exists(d, s, place)
    ensures HonestEdit(ControlAt(d, place), Finalized(EditAt(d, s, place)).(touched := true),
                       Resolve(s.data, BindingOf(d, place)))
  {
    HonestPlace(d, s, place);
  }

  lemma TouchedArrayIsSound(d: Definition, s: State, k: nat)
    requires Sound(d, s) && k < |s.arrays|
    ensures var t := s.(arrays := s.arrays[k := s.arrays[k].(touched := true)], stateRevision := s.stateRevision + 1);
            Sound(d, t) && (Honest(d, s) ==> Honest(d, t))
  {
    var t := s.(arrays := s.arrays[k := s.arrays[k].(touched := true)], stateRevision := s.stateRevision + 1);
    assert LiveIds(t.arrays) == LiveIds(s.arrays);
    hide HonestEdits;
    forall l | 0 <= l < |d.arrays| ensures Rows(d, t, l) == Rows(d, s, l) {
    }
  }

  lemma BlurIsSound(d: Definition, s: State, binding: Pointer)
    requires Sound(d, s)
    ensures Sound(d, Blur(d, s, binding).0)
    ensures Honest(d, s) ==> Honest(d, Blur(d, s, binding).0)
  {
    hide HonestEdit, HonestEdits, HonestRows, Resolve, Identified, Current, Rows, Locate, WithEdit;
    var place, k := Locate(d, s, binding), ArrayIndex(d.arrays, binding);
    if place.Some? {
      EditedIsSound(d, s, place.value, Finalized(EditAt(d, s, place.value)).(touched := true));
      if Honest(d, s) {
        LeavingIsHonest(d, s, place.value);
      }
    } else if k.Some? {
      TouchedArrayIsSound(d, s, k.value);
    }
  }

  lemma HonestPlace(d: Definition, s: State, place: Place)
    requires Shaped(d, s) && Aligned(d, s) && Honest(d, s) && Exists(d, s, place)
    ensures HonestEdit(ControlAt(d, place), EditAt(d, s, place), Resolve(s.data, BindingOf(d, place)))
  {
    if place.InItem? {
      var InItem(k, i, c) := place;
      assert HonestRow(d.arrays[k], Rows(d, s, k)[i]);
      ItemControlsResolveInItems(s.data, d.arrays[k].binding, i, d.arrays[k].controls[c].binding);
    }
  }

  /** Leaving a control never discards input: a dropped buffer stands for what the data holds there. */
  lemma DroppedBuffersAreInTheData(d: Definition, s: State, place: Place)
    requires Shaped(d, s) && Aligned(d, s) && Honest(d, s) && Exists(d, s, place)
    requires EditAt(d, s, place).buffer.Some? && Finalized(EditAt(d, s, place)).buffer.None?
    ensures var control := ControlAt(d, place);
            && Resolve(s.data, BindingOf(d, place)).Some?
            && Meant(control.kind, EditAt(d, s, place).buffer.value).Some?
            && JsonEqual(Resolve(s.data, BindingOf(d, place)).value, Meant(control.kind, EditAt(d, s, place).buffer.value).value)
  {
    HonestPlace(d, s, place);
  }
}
