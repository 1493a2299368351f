/** When the operations on items are accepted, what they answer, and the whole form they leave. */
module RowAnswers {
  import opened Bytes
  import opened Json
  import opened FormModel
  import opened ArrayOperations
  import opened Effects

  // --------------------------------------------------------------------------- common parts

  /** An item that nothing was typed into. */
  ghost predicate IsBlank(item: Item, identity: nat, controls: nat) {
    && item.identity == identity && |item.edits| == controls
    && forall c | 0 <= c < controls :: item.edits[c] == EditState(None, None, false)
  }

  /** Other items in one array; everything else about the arrays is as before. */
  ghost predicate OnlyItems(s: State, t: State, k: nat)
    requires k < |s.arrays|
  {
    && |t.arrays| == |s.arrays| && t.arrays[k].touched == s.arrays[k].touched
    && forall l | 0 <= l < |s.arrays| && l != k :: t.arrays[l] == s.arrays[l]
  }

  /** The data holds the elements at the array's place, and nothing apart from it differs. */
  ghost predicate HoldsElements(s: State, t: State, binding: Pointer, elements: seq<Json>) {
    Resolve(t.data, binding) == Some(Array(elements)) && OnlyDataAt(s.data, t.data, binding)
  }

  /** The data changed: both revisions move by one and no finding stays. */
  ghost predicate RecordsDataChange(s: State, t: State) {
    && t.batches == [] && t.dataRevision == s.dataRevision + 1 && t.stateRevision == s.stateRevision + 1
    && t.baseline == s.baseline && t.baselineIds == s.baselineIds && t.submissionAttempted == s.submissionAttempted
  }

  /** The state revision moves by one; data, findings, baseline and data revision stay. */
  ghost predicate RecordsStateChange(s: State, t: State) {
    && t.data == s.data && t.batches == s.batches && t.dataRevision == s.dataRevision
    && t.stateRevision == s.stateRevision + 1
    && t.baseline == s.baseline && t.baselineIds == s.baselineIds && t.submissionAttempted == s.submissionAttempted
  }

  /** The array at a place, if there is one. */
  function PresentElements(data: Json, binding: Pointer): Option<seq<Json>> {
    match Resolve(data, binding)
    case Some(Array(items)) => Some(items)
    case _ => None
  }

  /** A new member can go there: the value above is an object. */
  predicate ObjectAbove(data: Json, binding: Pointer) {
    binding != [] &&
    match Resolve(data, binding[..|binding| - 1])
    case Some(Object(_)) => true
    case _ => false
  }

  /** A multiple choice: scalars, each at most once, from the options of one control. */
  predicate OffersChoices(list: ArrayDefinition) {
    list.uniqueItems && !list.withObjects && |list.controls| == 1 && list.controls[0].kind == ChoiceControl
  }

  lemma ArrayIsFound(d: Definition, k: nat)
    requires WellFormedDefinition(d) && k < |d.arrays|
    ensures ArrayIndex(d.arrays, d.arrays[k].binding) == Some(k)
  {
    var found := ArrayIndex(d.arrays, d.arrays[k].binding).value;
    assert found != k ==> Apart(d.arrays[if found < k then found else k].binding, d.arrays[if found < k then k else found].binding);
  }

  lemma PresentElementsAreValues(data: Json, binding: Pointer)
    ensures PresentElements(data, binding).Some? <==> IsArrayAt(data, binding)
    ensures PresentElements(data, binding).Some? ==> PresentElements(data, binding).value == ValuesAt(data, binding)
  {
  }

  /** Writing rows into an array that can be held. */
  lemma WithRowsHolds(d: Definition, s: State, k: nat, rows: seq<Row>, next: nat)
    requires k < |d.arrays| == |s.arrays| && CanHoldArray(d, s, k)
    ensures HoldsElements(s, WithRows(d, s, k, rows, next), d.arrays[k].binding, RowValues(rows))
    ensures OnlyItems(s, WithRows(d, s, k, rows, next), k)
    ensures WithRows(d, s, k, rows, next).arrays[k].items == RowItems(rows)
  {
    HoldsAnyArray(d, s, k, Array(RowValues(rows)));
    SetBoundTakesEffect(s.data, d.arrays[k].binding, Array(RowValues(rows)));
    hide SetBound, Resolve;
  }

  // ------------------------------------------------------------------------ append and insert

  /** Another item fits: there is an array, and it holds fewer elements than it may. */
  predicate FitsOneMore(list: ArrayDefinition, present: Option<seq<Json>>) {
    present.Some? && (list.maxItems.Some? ==> |present.value| < list.maxItems.value)
  }

  lemma CanAppendIsFitting(d: Definition, s: State, k: nat)
    requires WellFormedDefinition(d) && k < |d.arrays|
    ensures CanAppend(d, s, d.arrays[k].binding) <==> FitsOneMore(d.arrays[k], PresentElements(s.data, d.arrays[k].binding))
  {
    ArrayIsFound(d, k);
    PresentElementsAreValues(s.data, d.arrays[k].binding);
    hide ArrayIndex, Resolve;
  }

  /** A blank item and a seeded element, both at the same place. */
  ghost predicate InsertedAt(d: Definition, s: State, t: State, k: nat, i: nat, seed: Json, before: seq<Json>)
    requires k < |d.arrays| && k < |s.arrays| && i <= |s.arrays[k].items| && i <= |before|
  {
    var items := s.arrays[k].items;
    && HoldsElements(s, t, d.arrays[k].binding, before[..i] + [seed] + before[i..])
    && OnlyItems(s, t, k) && t.nextIdentity == s.nextIdentity + 1 && t.edits == s.edits
    && |t.arrays[k].items| == |items| + 1
    && t.arrays[k].items[..i] == items[..i] && t.arrays[k].items[i + 1..] == items[i..]
    && IsBlank(t.arrays[k].items[i], s.nextIdentity, |d.arrays[k].controls|)
  }

  lemma InsertedRowIsInserted(d: Definition, s: State, k: nat, i: nat, seed: Json)
    requires Shaped(d, s) && Aligned(d, s) && k < |d.arrays| && i <= |s.arrays[k].items| && CanHoldArray(d, s, k)
    ensures i <= |ValuesAt(s.data, d.arrays[k].binding)|
    ensures InsertedAt(d, s, InsertedRow(d, s, k, i, seed), k, i, seed, ValuesAt(s.data, d.arrays[k].binding))
    ensures RecordsDataChange(s, InsertedRow(d, s, k, i, seed))
  {
    var values, rows := ValuesAt(s.data, d.arrays[k].binding), Rows(d, s, k);
    var inserted := InsertAt(rows, i, FreshRow(d.arrays[k], s.nextIdentity, seed));
    WithRowsHolds(d, s, k, inserted, s.nextIdentity + 1);
    assert RowValues(inserted) == values[..i] + [seed] + values[i..];
    var items := RowItems(inserted);
    assert items[..i] == s.arrays[k].items[..i] && items[i + 1..] == s.arrays[k].items[i..];
    hide WithRows, ValuesAt, OnlyDataAt, Resolve;
  }

  /** Appending is accepted exactly when one more item fits; then the new item takes the next identity. */
  lemma AppendIsDecided(d: Definition, s: State, k: nat)
    requires WellFormedDefinition(d) && Shaped(d, s) && Aligned(d, s) && k < |d.arrays|
    ensures var list := d.arrays[k];
            var present, (t, r) := PresentElements(s.data, list.binding), Append(d, s, list.binding);
            if FitsOneMore(list, present) then
              && r == Ok(s.nextIdentity) && RecordsDataChange(s, t) && |s.arrays[k].items| == |present.value|
              && InsertedAt(d, s, t, k, |present.value|, list.creationSeed, present.value)
            else t == s && r == Err(OperationNotAllowed)
  {
    var list := d.arrays[k];
    CanAppendIsFitting(d, s, k);
    ArrayIsFound(d, k);
    PresentElementsAreValues(s.data, list.binding);
    hide FitsOneMore, ArrayIndex, Resolve;
    if CanAppend(d, s, list.binding) {
      PresentArraysHold(d, s, k);
      InsertedRowIsInserted(d, s, k, |s.arrays[k].items|, list.creationSeed);
    }
    hide CanAppend, InsertedAt, RecordsDataChange, InsertedRow, PresentElements, CanHoldArray;
  }

  /** The identities from a place on, in order. */
  ghost predicate ListsFrom(items: seq<Item>, i: nat, ids: seq<nat>)
    requires i <= |items|
  {
    |ids| == |items| - i && forall j | 0 <= j < |ids| :: ids[j] == items[i + j].identity
  }

  lemma ItemIsFound(d: Definition, s: State, k: nat, i: nat)
    requires Sound(d, s) && k < |d.arrays| && i < |s.arrays[k].items|
    ensures ItemIndex(s.arrays[k].items, s.arrays[k].items[i].identity) == Some(i)
    ensures IsArrayAt(s.data, d.arrays[k].binding)
  {
    RowsAreDistinct(d, s, k);
    ItemsMeanAnArray(d, s, k);
    var found := ItemIndex(s.arrays[k].items, s.arrays[k].items[i].identity).value;
    assert Rows(d, s, k)[found].identity == Rows(d, s, k)[i].identity;
    hide ItemIndex, ValuesAt;
  }

  /** Inserting before an item is accepted exactly when one more fits; the answer lists the items shifted, in order. */
  lemma InsertIsDecided(d: Definition, s: State, k: nat, i: nat)
    requires WellFormedDefinition(d) && Sound(d, s) && k < |d.arrays| && i < |s.arrays[k].items|
    ensures var list, before := d.arrays[k], s.arrays[k].items[i].identity;
            var present, (t, r) := PresentElements(s.data, list.binding), InsertBefore(d, s, list.binding, before);
            if FitsOneMore(list, present) then
              && RecordsDataChange(s, t) && |present.value| == |s.arrays[k].items|
              && InsertedAt(d, s, t, k, i, list.creationSeed, present.value)
              && r.Ok? && r.value.identity == s.nextIdentity && ListsFrom(s.arrays[k].items, i, r.value.shifted)
            else t == s && r == Err(OperationNotAllowed)
  {
    var list := d.arrays[k];
    CanAppendIsFitting(d, s, k);
    ArrayIsFound(d, k);
    ItemIsFound(d, s, k, i);
    PresentElementsAreValues(s.data, list.binding);
    PresentArraysHold(d, s, k);
    hide FitsOneMore, ArrayIndex, ItemIndex, Resolve, Identified, CanHoldArray;
    if CanAppend(d, s, list.binding) {
      InsertedRowIsInserted(d, s, k, i, list.creationSeed);
    }
    hide CanAppend, InsertedAt, RecordsDataChange, InsertedRow, PresentElements;
  }

  // -------------------------------------------------------------------------------- remove

  /** One less is allowed: there is an element, and more of them than there have to be. */
  predicate AllowsOneLess(list: ArrayDefinition, present: Option<seq<Json>>) {
    present.Some? && present.value != [] && (list.minItems.Some? ==> |present.value| > list.minItems.value)
  }

  lemma CanRemoveIsAllowing(d: Definition, s: State, k: nat)
    requires WellFormedDefinition(d) && k < |d.arrays|
    ensures CanRemove(d, s, d.arrays[k].binding) <==> AllowsOneLess(d.arrays[k], PresentElements(s.data, d.arrays[k].binding))
  {
    ArrayIsFound(d, k);
    PresentElementsAreValues(s.data, d.arrays[k].binding);
    hide ArrayIndex, Resolve;
  }

  /** Item and element go together; nothing else does. */
  ghost predicate RemovedAt(d: Definition, s: State, t: State, k: nat, i: nat, before: seq<Json>)
    requires k < |d.arrays| && k < |s.arrays| && i < |s.arrays[k].items| && i < |before|
  {
    && HoldsElements(s, t, d.arrays[k].binding, before[..i] + before[i + 1..])
    && OnlyItems(s, t, k) && t.nextIdentity == s.nextIdentity && t.edits == s.edits
    && t.arrays[k].items == s.arrays[k].items[..i] + s.arrays[k].items[i + 1..]
  }

  /** Removing an item is accepted exactly when one less is allowed; the answer lists the items shifted, in order. */
  lemma RemoveIsDecided(d: Definition, s: State, k: nat, i: nat)
    requires WellFormedDefinition(d) && Sound(d, s) && k < |d.arrays| && i < |s.arrays[k].items|
    ensures var list, identity := d.arrays[k], s.arrays[k].items[i].identity;
            var present, (t, r) := PresentElements(s.data, list.binding), Remove(d, s, list.binding, identity);
            if AllowsOneLess(list, present) then
              && RecordsDataChange(s, t) && |present.value| == |s.arrays[k].items|
              && RemovedAt(d, s, t, k, i, present.value)
              && r.Ok? && r.value.identity == identity && ListsFrom(s.arrays[k].items, i + 1, r.value.shifted)
            else t == s && r == Err(OperationNotAllowed)
  {
    var list, values, rows := d.arrays[k], ValuesAt(s.data, d.arrays[k].binding), Rows(d, s, k);
    CanRemoveIsAllowing(d, s, k);
    ArrayIsFound(d, k);
    ItemIsFound(d, s, k, i);
    PresentElementsAreValues(s.data, list.binding);
    PresentArraysHold(d, s, k);
    WithRowsHolds(d, s, k, RemoveAt(rows, i), s.nextIdentity);
    assert RowValues(RemoveAt(rows, i)) == values[..i] + values[i + 1..];
    assert RowItems(RemoveAt(rows, i)) == s.arrays[k].items[..i] + s.arrays[k].items[i + 1..];
    RemoveUnfolds(d, s, k, i);
    hide AllowsOneLess, ArrayIndex, ItemIndex, Resolve, Identified, CanHoldArray, CanRemove, HoldsElements, PresentElements,
         Remove, RemoveAt, ValuesAt;
  }

  lemma RemoveUnfolds(d: Definition, s: State, k: nat, i: nat)
    requires Sound(d, s) && k < |d.arrays| && i < |s.arrays[k].items|
    requires ArrayIndex(d.arrays, d.arrays[k].binding) == Some(k)
    requires ItemIndex(s.arrays[k].items, s.arrays[k].items[i].identity) == Some(i)
    ensures var identity := s.arrays[k].items[i].identity;
            Remove(d, s, d.arrays[k].binding, identity)
            == if CanRemove(d, s, d.arrays[k].binding)
               then (DataChanged(WithRows(d, s, k, RemoveAt(Rows(d, s, k), i), s.nextIdentity)),
                     Ok(Removed(identity, Ids(s.arrays[k].items[i + 1..]))))
               else (s, Err(OperationNotAllowed))
  {
    hide CanRemove, WithRows, ArrayIndex, ItemIndex;
  }

  // ---------------------------------------------------------------------------------- move

  /** The place an item changes to, if there is one. */
  function Neighbour(i: nat, up: bool): int {
    if up then i - 1 else i + 1
  }

  /** Items and elements of two places are exchanged; nothing else changes. */
  ghost predicate ExchangedAt(d: Definition, s: State, t: State, k: nat, i: nat, j: nat, before: seq<Json>)
    requires k < |d.arrays| && k < |s.arrays| && i < |s.arrays[k].items| && j < |s.arrays[k].items|
    requires i < |before| && j < |before|
  {
    var items := s.arrays[k].items;
    && HoldsElements(s, t, d.arrays[k].binding, before[i := before[j]][j := before[i]])
    && OnlyItems(s, t, k) && t.nextIdentity == s.nextIdentity && t.edits == s.edits
    && t.arrays[k].items == items[i := items[j]][j := items[i]]
  }

  /** Moving is possible exactly when there is a neighbour in that direction; the data counts as changed exactly when the
  two elements differ. */
  lemma MoveIsDecided(d: Definition, s: State, k: nat, i: nat, up: bool)
    requires WellFormedDefinition(d) && Sound(d, s) && k < |d.arrays| && i < |s.arrays[k].items|
    ensures var list, items, j := d.arrays[k], s.arrays[k].items, Neighbour(i, up);
            var present, (t, r) := PresentElements(s.data, list.binding), Move(d, s, list.binding, items[i].identity, up);
            if 0 <= j < |items| then
              && present.Some? && |present.value| == |items| && ExchangedAt(d, s, t, k, i, j, present.value)
              && var changed := !JsonEqual(present.value[i], present.value[j]);
                 && r == Ok(Moved(items[i].identity, items[j].identity, i, j, changed))
                 && t.batches == (if changed then [] else s.batches)
                 && t.dataRevision == (if changed then s.dataRevision + 1 else s.dataRevision)
                 && t.stateRevision == s.stateRevision + 1
                 && t.baseline == s.baseline && t.baselineIds == s.baselineIds
                 && t.submissionAttempted == s.submissionAttempted
            else t == s && r == Err(OperationNotAllowed)
  {
    var list, items := d.arrays[k], s.arrays[k].items;
    ArrayIsFound(d, k);
    ItemIsFound(d, s, k, i);
    PresentElementsAreValues(s.data, list.binding);
    PresentArraysHold(d, s, k);
    var j := Neighbour(i, up);
    if 0 <= j < |items| {
      ExchangedIsExchanged(d, s, k, i, j);
    }
    hide ArrayIndex, ItemIndex, Resolve, Identified, CanHoldArray, Exchanged, ExchangedAt, PresentElements, JsonEqual,
         ValuesAt;
  }

  lemma ExchangedIsExchanged(d: Definition, s: State, k: nat, i: nat, j: nat)
    requires Sound(d, s) && k < |d.arrays| && i < |s.arrays[k].items| && j < |s.arrays[k].items| && i != j
    requires CanHoldArray(d, s, k)
    ensures var t, values := Exchanged(d, s, k, i, j), ValuesAt(s.data, d.arrays[k].binding);
            && ExchangedAt(d, s, t, k, i, j, values)
            && var changed := !JsonEqual(values[i], values[j]);
               && t.batches == (if changed then [] else s.batches)
               && t.dataRevision == (if changed then s.dataRevision + 1 else s.dataRevision)
               && t.stateRevision == s.stateRevision + 1
               && t.baseline == s.baseline && t.baselineIds == s.baselineIds
               && t.submissionAttempted == s.submissionAttempted
  {
    var values, rows := ValuesAt(s.data, d.arrays[k].binding), Rows(d, s, k);
    WithRowsHolds(d, s, k, SwapAt(rows, i, j), s.nextIdentity);
    assert RowValues(SwapAt(rows, i, j)) == values[i := values[j]][j := values[i]];
    assert RowItems(SwapAt(rows, i, j)) == s.arrays[k].items[i := s.arrays[k].items[j]][j := s.arrays[k].items[i]];
    hide Resolve, Identified, CanHoldArray, JsonEqual, OnlyDataAt, ValuesAt;
  }

  // ---------------------------------------------------------------------- what does not exist

  /** Where no array is bound nothing can be done, and nothing changes. */
  lemma UnknownArrayIsRefused(d: Definition, s: State, binding: Pointer, identity: nat, up: bool)
    requires Shaped(d, s) && Aligned(d, s) && forall k | 0 <= k < |d.arrays| :: d.arrays[k].binding != binding
    ensures Append(d, s, binding) == (s, Err(OperationNotAllowed))
    ensures InsertBefore(d, s, binding, identity) == (s, Err(OperationNotAllowed))
    ensures Remove(d, s, binding, identity) == (s, Err(OperationNotAllowed))
    ensures Move(d, s, binding, identity, up) == (s, Err(UnknownControl))
  {
    hide IsArrayAt, ValuesAt;
  }

  /** An identity that no item of the array has is unknown, unless the array cannot grow or shrink anyway. */
  lemma UnknownItemIsRefused(d: Definition, s: State, k: nat, identity: nat, up: bool)
    requires WellFormedDefinition(d) && Shaped(d, s) && Aligned(d, s) && k < |d.arrays|
    requires forall i | 0 <= i < |s.arrays[k].items| :: s.arrays[k].items[i].identity != identity
    ensures var list := d.arrays[k];
            var present := PresentElements(s.data, list.binding);
            && Move(d, s, list.binding, identity, up) == (s, Err(UnknownControl))
            && InsertBefore(d, s, list.binding, identity)
               == (s, Err(if FitsOneMore(list, present) then UnknownControl else OperationNotAllowed))
            && Remove(d, s, list.binding, identity)
               == (s, Err(if AllowsOneLess(list, present) then UnknownControl else OperationNotAllowed))
  {
    ArrayIsFound(d, k);
    CanAppendIsFitting(d, s, k);
    CanRemoveIsAllowing(d, s, k);
    hide CanAppend, CanRemove, FitsOneMore, AllowsOneLess, PresentElements, IsArrayAt, ValuesAt, ArrayIndex;
  }
}
