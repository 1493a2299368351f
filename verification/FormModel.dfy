/** The state of a form, and what every reachable form satisfies. */
module FormModel {
  import opened Bytes
  import opened Decimal
  import opened Numbers
  import opened Json

  // ------------------------------------------------------------------------- definitions

  datatype ControlKind =
    | StringControl | NumberControl | IntegerControl | BooleanControl | ChoiceControl | ConstantControl | NullControl

  datatype ControlDefinition = ControlDefinition(
    binding: Pointer, kind: ControlKind, acceptsNull: bool, choices: seq<Json>)

  /** An array of items with one template; the bindings of the template's controls are relative to the item. */
  datatype ArrayDefinition = ArrayDefinition(
    binding: Pointer, controls: seq<ControlDefinition>, withObjects: bool, uniqueItems: bool, creationSeed: Json,
    minItems: Option<nat>, maxItems: Option<nat>)
  {
    predicate IsMultipleChoice() {
      uniqueItems && !withObjects && |controls| == 1 && controls[0].kind.ChoiceControl?
    }

    function Options(): seq<Json> {
      if IsMultipleChoice() then controls[0].choices else []
    }
  }

  datatype Definition = Definition(controls: seq<ControlDefinition>, arrays: seq<ArrayDefinition>)

  ghost predicate ApartControls(controls: seq<ControlDefinition>) {
    forall i, j | 0 <= i < j < |controls| :: Apart(controls[i].binding, controls[j].binding)
  }

  predicate IsScalar(v: Json) {
    !v.Array? && !v.Object?
  }

  ghost predicate ScalarChoices(controls: seq<ControlDefinition>) {
    forall i, j | 0 <= i < |controls| && 0 <= j < |controls[i].choices| :: IsScalar(controls[i].choices[j])
  }

  /** The compiler binds every control and every array to a place of its own. */
  ghost predicate WellFormedDefinition(d: Definition) {
    && ApartControls(d.controls) && ScalarChoices(d.controls)
    && (forall i, k | 0 <= i < |d.controls| && 0 <= k < |d.arrays| :: Apart(d.controls[i].binding, d.arrays[k].binding))
    && (forall k, l | 0 <= k < l < |d.arrays| :: Apart(d.arrays[k].binding, d.arrays[l].binding))
    && forall k | 0 <= k < |d.arrays| :: ApartControls(d.arrays[k].controls) && ScalarChoices(d.arrays[k].controls)
  }

  // ------------------------------------------------------------------------------- state

  datatype EditState = EditState(buffer: Option<Bytes>, blocker: Option<ParseBlocker>, touched: bool)

  const UNTOUCHED: EditState := EditState(None, None, false)

  datatype Item = Item(identity: nat, edits: seq<EditState>)

  datatype ArrayState = ArrayState(items: seq<Item>, touched: bool)

  datatype Finding = Finding(pointer: Bytes, code: Bytes, blocking: bool)

  datatype Batch = Batch(source: Bytes, dataRevision: nat, findings: seq<Finding>)

  datatype State = State(
    edits: seq<EditState>, arrays: seq<ArrayState>, nextIdentity: nat, baselineIds: seq<seq<nat>>, baseline: Json,
    data: Json, batches: seq<Batch>, submissionAttempted: bool, dataRevision: nat, stateRevision: nat)

  function UntouchedEdits(count: nat): (edits: seq<EditState>)
    ensures |edits| == count && forall i | 0 <= i < count :: edits[i] == UNTOUCHED
  {
    seq(count, _ => UNTOUCHED)
  }

  function NewItem(list: ArrayDefinition, identity: nat): Item {
    Item(identity, UntouchedEdits(|list.controls|))
  }

  /** New items with consecutive identities. */
  function FreshItems(list: ArrayDefinition, count: nat, first: nat): (items: seq<Item>)
    ensures |items| == count && forall i | 0 <= i < count :: items[i] == NewItem(list, first + i)
  {
    seq(count, i requires 0 <= i < count => NewItem(list, first + i))
  }

  function Ids(items: seq<Item>): (ids: seq<nat>)
    ensures |ids| == |items| && forall i | 0 <= i < |items| :: ids[i] == items[i].identity
  {
    seq(|items|, i requires 0 <= i < |items| => items[i].identity)
  }

  function LiveIds(arrays: seq<ArrayState>): (ids: seq<seq<nat>>)
    ensures |ids| == |arrays| && forall k | 0 <= k < |arrays| :: ids[k] == Ids(arrays[k].items)
  {
    seq(|arrays|, k requires 0 <= k < |arrays| => Ids(arrays[k].items))
  }

  // ---------------------------------------------------------------------- data and rows

  predicate IsArrayAt(data: Json, binding: Pointer) {
    Resolve(data, binding).Some? && Resolve(data, binding).value.Array?
  }

  /** The elements of the bound array; none when there is no array there. */
  function ValuesAt(data: Json, binding: Pointer): seq<Json> {
    if IsArrayAt(data, binding) then Resolve(data, binding).value.items else []
  }

  function ItemPointer(binding: Pointer, index: nat): Pointer {
    binding + [NatText(index)]
  }

  /** An item as one thing: its identity, the edit states of its controls, and its value in the data. */
  datatype Row = Row(identity: nat, edits: seq<EditState>, value: Json)

  function RowsOf(items: seq<Item>, values: seq<Json>): (rows: seq<Row>)
    requires |items| == |values|
    ensures |rows| == |items|
    ensures forall i | 0 <= i < |rows| :: rows[i] == Row(items[i].identity, items[i].edits, values[i])
  {
    seq(|items|, i requires 0 <= i < |items| => Row(items[i].identity, items[i].edits, values[i]))
  }

  function RowItems(rows: seq<Row>): (items: seq<Item>)
    ensures |items| == |rows| && forall i | 0 <= i < |rows| :: items[i] == Item(rows[i].identity, rows[i].edits)
  {
    seq(|rows|, i requires 0 <= i < |rows| => Item(rows[i].identity, rows[i].edits))
  }

  function RowValues(rows: seq<Row>): (values: seq<Json>)
    ensures |values| == |rows| && forall i | 0 <= i < |rows| :: values[i] == rows[i].value
  {
    seq(|rows|, i requires 0 <= i < |rows| => rows[i].value)
  }

  function RowIds(rows: seq<Row>): (ids: seq<nat>)
    ensures |ids| == |rows| && forall i | 0 <= i < |rows| :: ids[i] == rows[i].identity
  {
    seq(|rows|, i requires 0 <= i < |rows| => rows[i].identity)
  }

  function FreshRow(list: ArrayDefinition, identity: nat, value: Json): Row {
    Row(identity, UntouchedEdits(|list.controls|), value)
  }

  // ------------------------------------------------------------------ structural validity

  ghost predicate Shaped(d: Definition, s: State) {
    && |s.edits| == |d.controls| && |s.arrays| == |d.arrays| == |s.baselineIds|
    && forall k, i | 0 <= k < |d.arrays| && 0 <= i < |s.arrays[k].items| ::
         |s.arrays[k].items[i].edits| == |d.arrays[k].controls|
  }

  /** Every array has as many items as its data has elements, now and in the baseline. */
  ghost predicate Aligned(d: Definition, s: State)
    requires Shaped(d, s)
  {
    forall k | 0 <= k < |d.arrays| ::
      && |s.arrays[k].items| == |ValuesAt(s.data, d.arrays[k].binding)|
      && |s.baselineIds[k]| == |ValuesAt(s.baseline, d.arrays[k].binding)|
  }

  /** No identity occurs twice, and every identity has been handed out. */
  ghost predicate DistinctBelow(ids: seq<seq<nat>>, next: nat) {
    && (forall k, i | 0 <= k < |ids| && 0 <= i < |ids[k]| :: ids[k][i] < next)
    && forall k, i, l, j | 0 <= k < |ids| && 0 <= i < |ids[k]| && 0 <= l < |ids| && 0 <= j < |ids[l]| ::
         ids[k][i] == ids[l][j] ==> k == l && i == j
  }

  ghost predicate Identified(s: State) {
    DistinctBelow(LiveIds(s.arrays), s.nextIdentity) && DistinctBelow(s.baselineIds, s.nextIdentity)
  }

  predicate FindingBelow(left: Finding, right: Finding) {
    || Below(left.pointer, right.pointer)
    || (left.pointer == right.pointer && Below(left.code, right.code))
    || (left.pointer == right.pointer && left.code == right.code && !left.blocking && right.blocking)
  }

  ghost predicate SortedFindings(findings: seq<Finding>) {
    forall i, j | 0 <= i < j < |findings| :: FindingBelow(findings[i], findings[j])
  }

  ghost predicate SortedSources(batches: seq<Batch>) {
    forall i, j | 0 <= i < j < |batches| :: Below(batches[i].source, batches[j].source)
  }

  /** Batches belong to the current data, one for each source, and hold sorted findings without repeats. */
  ghost predicate Current(s: State) {
    && SortedSources(s.batches)
    && forall i | 0 <= i < |s.batches| ::
         && s.batches[i].dataRevision == s.dataRevision
         && s.batches[i].findings != [] && SortedFindings(s.batches[i].findings)
  }

  ghost predicate Sound(d: Definition, s: State) {
    Shaped(d, s) && Aligned(d, s) && Identified(s) && Current(s)
  }

  function Rows(d: Definition, s: State, k: nat): seq<Row>
    requires k < |d.arrays| && k < |s.arrays|
    requires |s.arrays[k].items| == |ValuesAt(s.data, d.arrays[k].binding)|
  {
    RowsOf(s.arrays[k].items, ValuesAt(s.data, d.arrays[k].binding))
  }

  // ------------------------------------------------------------------------ honest buffers

  predicate IsSpaceByte(b: Byte) {
    b == 32 || b == 9 || b == 10 || b == 13
  }

  /** White space around a number is dropped before it is read. */
  function TrimStart(text: Bytes): Bytes {
    if text != [] && IsSpaceByte(text[0]) then TrimStart(text[1..]) else text
  }

  function TrimEnd(text: Bytes): Bytes {
    if text != [] && IsSpaceByte(text[|text| - 1]) then TrimEnd(text[..|text| - 1]) else text
  }

  function Trim(text: Bytes): Bytes {
    TrimEnd(TrimStart(text))
  }

  /** The value that a text in a control stands for, if it stands for one. */
  ghost function Meant(kind: ControlKind, text: Bytes): Option<Json> {
    match kind
    case StringControl => Some(String(text))
    case NumberControl => if IsLiteral(Trim(text)) then Some(Number(Trim(text))) else None
    case IntegerControl => if IsLiteral(Trim(text)) then Some(Number(Trim(text))) else None
    case _ => None
  }

  /** A buffer without a blocker stands for what is in the data. */
  ghost predicate HonestEdit(control: ControlDefinition, edit: EditState, current: Option<Json>) {
    edit.buffer.Some? && edit.blocker.None? ==>
      && current.Some? && Meant(control.kind, edit.buffer.value).Some?
      && JsonEqual(current.value, Meant(control.kind, edit.buffer.value).value)
  }

  ghost predicate HonestEdits(controls: seq<ControlDefinition>, edits: seq<EditState>, value: Json)
    requires |edits| == |controls|
  {
    forall c | 0 <= c < |controls| :: HonestEdit(controls[c], edits[c], Resolve(value, controls[c].binding))
  }

  ghost predicate HonestRow(list: ArrayDefinition, row: Row) {
    |row.edits| == |list.controls| && HonestEdits(list.controls, row.edits, row.value)
  }

  ghost predicate HonestRows(list: ArrayDefinition, rows: seq<Row>) {
    forall i | 0 <= i < |rows| :: HonestRow(list, rows[i])
  }

  ghost predicate Honest(d: Definition, s: State)
    requires Shaped(d, s) && Aligned(d, s)
  {
    && HonestEdits(d.controls, s.edits, s.data)
    && forall k | 0 <= k < |d.arrays| :: HonestRows(d.arrays[k], Rows(d, s, k))
  }

  /** A control of an item is bound below the item: its buffer is judged against the item's value. */
  lemma ItemControlsResolveInItems(data: Json, binding: Pointer, i: nat, relative: Pointer)
    requires i < |ValuesAt(data, binding)|
    ensures Resolve(data, ItemPointer(binding, i) + relative) == Resolve(ValuesAt(data, binding)[i], relative)
  {
    ResolveThrough(data, ItemPointer(binding, i), relative);
    ResolveThrough(data, binding, [NatText(i)]);
    assert [NatText(i)][1..] == [];
  }

  // ------------------------------------------------------------- what each change must respect

  lemma UntouchedIsHonest(controls: seq<ControlDefinition>, value: Json)
    ensures HonestEdits(controls, UntouchedEdits(|controls|), value)
  {
  }

  lemma {:induction false} ReplacedIdsStayDistinct(ids: seq<seq<nat>>, next: nat, k: nat, row: seq<nat>, next': nat)
    requires DistinctBelow(ids, next) && k < |ids| && next <= next'
    requires forall i | 0 <= i < |row| :: row[i] in ids[k] || next <= row[i] < next'
    requires forall i, j | 0 <= i < j < |row| :: row[i] != row[j]
    ensures DistinctBelow(ids[k := row], next')
  {
  }

  lemma LaterIdsStayDistinct(ids: seq<seq<nat>>, next: nat, next': nat)
    requires DistinctBelow(ids, next) && next <= next'
    ensures DistinctBelow(ids, next')
  {
  }
}
