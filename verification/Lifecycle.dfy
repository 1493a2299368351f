/** Creating a form, returning it to its baseline, giving it new data, and submitting it. */
module Lifecycle {
  import opened Bytes
  import opened Numbers
  import opened Json
  import opened FormModel
  import opened ControlEdits
  import opened Structures

  function RenewAll(count: nat): (plans: seq<Plan>)
    ensures |plans| == count && forall k | 0 <= k < count :: plans[k] == Renew
  {
    seq(count, _ => Renew)
  }

  function EmptyArrays(count: nat): (arrays: seq<ArrayState>)
    ensures |arrays| == count && forall k | 0 <= k < count :: arrays[k] == ArrayState([], false)
  {
    seq(count, _ => ArrayState([], false))
  }

  /** New items for every array of some data. */
  function FreshArrays(d: Definition, data: Json, next: nat): (made: (seq<ArrayState>, nat))
    ensures |made.0| == |d.arrays|
  {
    Planned(d.arrays, EmptyArrays(|d.arrays|), RenewAll(|d.arrays|), data, next)
  }

  lemma FreshArraysFollow(d: Definition, data: Json, next: nat)
    ensures var (arrays, n) := FreshArrays(d, data, next);
            && next <= n && DistinctBelow(LiveIds(arrays), n) && AllShaped(d.arrays, arrays)
            && forall k | 0 <= k < |d.arrays| ::
                 && |arrays[k].items| == |ValuesAt(data, d.arrays[k].binding)|
                 && NoBuffers(arrays[k].items) && !arrays[k].touched
  {
    var empty := EmptyArrays(|d.arrays|);
    assert forall k | 0 <= k < |d.arrays| :: LiveIds(empty)[k] == [];
    PlannedFollows(d.arrays, empty, RenewAll(|d.arrays|), data, next);
    hide ValuesAt, DistinctBelow;
    forall k | 0 <= k < |d.arrays|
      ensures |FreshArrays(d, data, next).0[k].items| == |ValuesAt(data, d.arrays[k].binding)|
      ensures NoBuffers(FreshArrays(d, data, next).0[k].items) && !FreshArrays(d, data, next).0[k].touched
    {
      var n := PlannedAt(d.arrays, empty, RenewAll(|d.arrays|), data, next, k);
      hide Planned;
    }
  }

  /** A form without buffers is honest, whatever its data. */
  lemma QuietFormsAreHonest(d: Definition, s: State)
    requires Shaped(d, s) && Aligned(d, s)
    requires forall c | 0 <= c < |s.edits| :: s.edits[c].buffer.None?
    requires forall k | 0 <= k < |s.arrays| :: NoBuffers(s.arrays[k].items)
    ensures Honest(d, s)
  {
    hide Resolve, ValuesAt;
  }

  // ----------------------------------------------------------------------------- creation

  datatype CreateFormError = FormDataMustBeObject

  /** `create_form`. */
  function CreateForm(d: Definition, data: Json): Result<State, CreateFormError> {
    if !data.Object? then Err(FormDataMustBeObject)
    else
      var (arrays, next) := FreshArrays(d, data, 1);
      Ok(State(UntouchedEdits(|d.controls|), arrays, next, LiveIds(arrays), data, data, [], false, 0, 0))
  }

  lemma CreatedFormIsSound(d: Definition, data: Json)
    requires data.Object?
    ensures Sound(d, CreateForm(d, data).value) && Honest(d, CreateForm(d, data).value)
  {
    var s := CreateForm(d, data).value;
    FreshArraysFollow(d, data, 1);
    hide FreshArrays, ValuesAt, DistinctBelow;
    assert Shaped(d, s) by {
      forall k | 0 <= k < |d.arrays| ensures ItemsShaped(s.arrays[k].items, |d.arrays[k].controls|) {
      }
    }
    QuietFormsAreHonest(d, s);
  }

  // -------------------------------------------------------------------------------- reset

  function ItemsWithIds(list: ArrayDefinition, ids: seq<nat>): (items: seq<Item>)
    ensures |items| == |ids| && forall i | 0 <= i < |ids| :: items[i] == NewItem(list, ids[i])
  {
    seq(|ids|, i requires 0 <= i < |ids| => NewItem(list, ids[i]))
  }

  predicate AnyTouched(arrays: seq<ArrayState>) {
    exists k | 0 <= k < |arrays| ::
      arrays[k].touched || exists i, c | 0 <= i < |arrays[k].items| && 0 <= c < |arrays[k].items[i].edits| ::
                             arrays[k].items[i].edits[c] != UNTOUCHED
  }

  predicate AnyEdited(edits: seq<EditState>) {
    exists c | 0 <= c < |edits| :: edits[c] != UNTOUCHED
  }

  function BaselineArrays(d: Definition, s: State): (arrays: seq<ArrayState>)
    requires Shaped(d, s)
    ensures |arrays| == |d.arrays|
    ensures forall k | 0 <= k < |d.arrays| ::
              arrays[k] == ArrayState(ItemsWithIds(d.arrays[k], s.baselineIds[k]), false)
  {
    seq(|d.arrays|, k requires 0 <= k < |d.arrays| => ArrayState(ItemsWithIds(d.arrays[k], s.baselineIds[k]), false))
  }

  /** `reset`: the baseline's data and exactly its items, with no trace of editing. */
  function Reset(d: Definition, s: State): State
    requires Shaped(d, s)
  {
    var dataChanged := !JsonEqual(s.data, s.baseline);
    var stateChanged := dataChanged || LiveIds(s.arrays) != s.baselineIds || s.submissionAttempted
                        || AnyEdited(s.edits) || AnyTouched(s.arrays);
    s.(edits := UntouchedEdits(|d.controls|), arrays := BaselineArrays(d, s),
       data := if dataChanged then s.baseline else s.data,
       batches := if dataChanged then [] else s.batches,
       dataRevision := if dataChanged then s.dataRevision + 1 else s.dataRevision,
       submissionAttempted := false,
       stateRevision := if stateChanged then s.stateRevision + 1 else s.stateRevision)
  }

  lemma EqualDataHasEqualCounts(data: Json, other: Json, binding: Pointer)
    requires JsonEqual(data, other)
    ensures |ValuesAt(data, binding)| == |ValuesAt(other, binding)|
  {
    EqualValuesResolveAlike(data, other, binding);
  }

  lemma ResetIsSound(d: Definition, s: State)
    requires Sound(d, s)
    ensures Sound(d, Reset(d, s)) && Honest(d, Reset(d, s))
    ensures LiveIds(Reset(d, s).arrays) == s.baselineIds && JsonEqual(Reset(d, s).data, s.baseline)
  {
    var t := Reset(d, s);
    EqualToItself(s.baseline);
    forall k | 0 <= k < |d.arrays| ensures Ids(t.arrays[k].items) == s.baselineIds[k] {
    }
    forall k | 0 <= k < |d.arrays|
      ensures |t.arrays[k].items| == |ValuesAt(t.data, d.arrays[k].binding)|
    {
      EqualDataHasEqualCounts(t.data, s.baseline, d.arrays[k].binding);
    }
    hide JsonEqual, ValuesAt, DistinctBelow, AnyTouched, AnyEdited;
    assert LiveIds(t.arrays) == s.baselineIds;
    QuietFormsAreHonest(d, t);
  }

  /** A reset that leaves the state revision alone leaves the whole form alone. */
  lemma QuietResetsChangeNothing(d: Definition, s: State)
    requires Sound(d, s) && Reset(d, s).stateRevision == s.stateRevision
    ensures Reset(d, s) == s
  {
    var t := Reset(d, s);
    hide JsonEqual, DistinctBelow, ValuesAt;
    assert t.edits == s.edits;
    forall k | 0 <= k < |d.arrays| ensures t.arrays[k] == s.arrays[k] {
      assert Ids(s.arrays[k].items) == s.baselineIds[k];
      forall i | 0 <= i < |s.arrays[k].items| ensures t.arrays[k].items[i] == s.arrays[k].items[i] {
        assert s.arrays[k].items[i].edits == UntouchedEdits(|d.arrays[k].controls|);
      }
      assert t.arrays[k].items == s.arrays[k].items;
    }
    assert t.arrays == s.arrays;
  }

  // --------------------------------------------------------------------------- new baseline

  /** `reinitialize`. */
  function Reinitialize(d: Definition, s: State, data: Json): (State, Result<(), CreateFormError>)
    requires Shaped(d, s)
  {
    if !data.Object? then (s, Err(FormDataMustBeObject))
    else
      var (arrays, next) := FreshArrays(d, data, s.nextIdentity);
      (State(UntouchedEdits(|d.controls|), arrays, next, LiveIds(arrays), data,
             if JsonEqual(s.data, data) then s.data else data, [], false, s.dataRevision + 1, s.stateRevision + 1),
       Ok(()))
  }

  lemma ReinitializeIsSound(d: Definition, s: State, data: Json)
    requires Sound(d, s)
    ensures Sound(d, Reinitialize(d, s, data).0)
    ensures Honest(d, s) ==> Honest(d, Reinitialize(d, s, data).0)
    ensures data.Object? ==> Honest(d, Reinitialize(d, s, data).0)
  {
    if data.Object? {
      var t := Reinitialize(d, s, data).0;
      FreshArraysFollow(d, data, s.nextIdentity);
      forall k | 0 <= k < |d.arrays|
        ensures |ValuesAt(t.data, d.arrays[k].binding)| == |ValuesAt(data, d.arrays[k].binding)|
      {
        EqualToItself(data);
        EqualDataHasEqualCounts(t.data, data, d.arrays[k].binding);
      }
      hide FreshArrays, ValuesAt, DistinctBelow, JsonEqual;
      assert Shaped(d, t) by {
        forall k | 0 <= k < |d.arrays| ensures ItemsShaped(t.arrays[k].items, |d.arrays[k].controls|) {
        }
      }
      QuietFormsAreHonest(d, t);
    }
  }

  // ---------------------------------------------------------------------------- submission

  datatype Blocker =
    | ParseBlocked(binding: Pointer, reason: ParseBlocker)
    | ExternallyBlocked(source: Bytes, pointer: Bytes, code: Bytes)

  datatype Snapshot = Snapshot(data: Json, dataRevision: nat)

  function EditBlockers(controls: seq<ControlDefinition>, edits: seq<EditState>, base: Pointer): seq<Blocker>
    requires |controls| == |edits|
  {
    if controls == [] then []
    else
      var last := |controls| - 1;
      EditBlockers(controls[..last], edits[..last], base) +
      if edits[last].blocker.None? then []
      else [ParseBlocked(base + controls[last].binding, edits[last].blocker.value)]
  }

  function ItemBlockers(list: ArrayDefinition, items: seq<Item>): seq<Blocker>
    requires ItemsShaped(items, |list.controls|)
  {
    if items == [] then []
    else
      var last := |items| - 1;
      ItemBlockers(list, items[..last]) + EditBlockers(list.controls, items[last].edits, ItemPointer(list.binding, last))
  }

  function ArrayBlockers(lists: seq<ArrayDefinition>, arrays: seq<ArrayState>): seq<Blocker>
    requires |lists| == |arrays| && AllShaped(lists, arrays)
  {
    if lists == [] then []
    else
      var last := |lists| - 1;
      ArrayBlockers(lists[..last], arrays[..last]) + ItemBlockers(lists[last], arrays[last].items)
  }

  function FindingBlockers(source: Bytes, findings: seq<Finding>): seq<Blocker> {
    if findings == [] then []
    else
      var last := findings[|findings| - 1];
      FindingBlockers(source, findings[..|findings| - 1]) +
      if last.blocking then [ExternallyBlocked(source, last.pointer, last.code)] else []
  }

  function BatchBlockers(batches: seq<Batch>): seq<Blocker> {
    if batches == [] then []
    else
      var last := batches[|batches| - 1];
      BatchBlockers(batches[..|batches| - 1]) + FindingBlockers(last.source, last.findings)
  }

  function Blockers(d: Definition, s: State): seq<Blocker>
    requires Shaped(d, s)
  {
    assert AllShaped(d.arrays, s.arrays);
    EditBlockers(d.controls, s.edits, []) + ArrayBlockers(d.arrays, s.arrays) + BatchBlockers(s.batches)
  }

  function FinalizedEdits(edits: seq<EditState>): (finalized: seq<EditState>)
    ensures |finalized| == |edits| && forall c | 0 <= c < |edits| :: finalized[c] == Finalized(edits[c])
  {
    seq(|edits|, c requires 0 <= c < |edits| => Finalized(edits[c]))
  }

  function FinalizedItems(items: seq<Item>): (finalized: seq<Item>)
    ensures |finalized| == |items|
    ensures forall i | 0 <= i < |items| :: finalized[i] == items[i].(edits := FinalizedEdits(items[i].edits))
  {
    seq(|items|, i requires 0 <= i < |items| => items[i].(edits := FinalizedEdits(items[i].edits)))
  }

  function FinalizedArrays(arrays: seq<ArrayState>): (finalized: seq<ArrayState>)
    ensures |finalized| == |arrays|
    ensures forall k | 0 <= k < |arrays| :: finalized[k] == arrays[k].(items := FinalizedItems(arrays[k].items))
  {
    seq(|arrays|, k requires 0 <= k < |arrays| => arrays[k].(items := FinalizedItems(arrays[k].items)))
  }

  /** `prepare_submission`. */
  function PrepareSubmission(d: Definition, s: State): (State, Result<Snapshot, seq<Blocker>>)
    requires Shaped(d, s)
  {
    var edits, arrays := FinalizedEdits(s.edits), FinalizedArrays(s.arrays);
    var changed := !s.submissionAttempted || edits != s.edits || arrays != s.arrays;
    var blockers := Blockers(d, s);
    (s.(edits := edits, arrays := arrays, submissionAttempted := true,
        stateRevision := if changed then s.stateRevision + 1 else s.stateRevision),
     if blockers == [] then Ok(Snapshot(s.data, s.dataRevision)) else Err(blockers))
  }

  lemma FinalizedStaysHonest(controls: seq<ControlDefinition>, edits: seq<EditState>, value: Json)
    requires |edits| == |controls| && HonestEdits(controls, edits, value)
    ensures HonestEdits(controls, FinalizedEdits(edits), value)
  {
    hide Resolve;
  }

  lemma PrepareSubmissionIsSound(d: Definition, s: State)
    requires Sound(d, s)
    ensures Sound(d, PrepareSubmission(d, s).0)
    ensures Honest(d, s) ==> Honest(d, PrepareSubmission(d, s).0)
  {
    var t := PrepareSubmission(d, s).0;
    hide Blockers, ValuesAt, DistinctBelow, HonestEdits, Honest;
    FinalizedKeepIds(s.arrays);
    if Honest(d, s) {
      SubmittedIsHonest(d, s);
    }
  }

  lemma FinalizedKeepIds(arrays: seq<ArrayState>)
    ensures LiveIds(FinalizedArrays(arrays)) == LiveIds(arrays)
  {
    forall k | 0 <= k < |arrays| ensures Ids(FinalizedArrays(arrays)[k].items) == Ids(arrays[k].items) {
    }
  }

  lemma SubmittedIsHonest(d: Definition, s: State)
    requires Shaped(d, s) && Aligned(d, s) && Honest(d, s)
    ensures var t := PrepareSubmission(d, s).0; Shaped(d, t) && Aligned(d, t) && Honest(d, t)
  {
    var t := PrepareSubmission(d, s).0;
    hide Blockers, ValuesAt, HonestEdits;
    FinalizedStaysHonest(d.controls, s.edits, s.data);
    forall k, i | 0 <= k < |d.arrays| && 0 <= i < |t.arrays[k].items|
      ensures HonestRow(d.arrays[k], Rows(d, t, k)[i])
    {
      assert HonestRow(d.arrays[k], Rows(d, s, k)[i]);
      FinalizedStaysHonest(d.arrays[k].controls, s.arrays[k].items[i].edits, ValuesAt(s.data, d.arrays[k].binding)[i]);
    }
  }

  // ----------------------------------------------------------------- which blockers are listed

  ghost predicate EditBlocks(controls: seq<ControlDefinition>, edits: seq<EditState>, base: Pointer, c: nat, b: Blocker)
    requires |controls| == |edits|
  {
    c < |edits| && edits[c].blocker.Some? && b == ParseBlocked(base + controls[c].binding, edits[c].blocker.value)
  }

  lemma LastEditBlocks(controls: seq<ControlDefinition>, edits: seq<EditState>, base: Pointer, b: Blocker)
    requires |controls| == |edits| && controls != []
    ensures var last := |controls| - 1;
            b in EditBlockers(controls, edits, base)
            <==> b in EditBlockers(controls[..last], edits[..last], base) || EditBlocks(controls, edits, base, last, b)
  {
    hide EditBlockers;
    EditBlockersEnd(controls, edits, base);
  }

  lemma EditBlockersEnd(controls: seq<ControlDefinition>, edits: seq<EditState>, base: Pointer)
    requires |controls| == |edits| && controls != []
    ensures var last := |controls| - 1;
            EditBlockers(controls, edits, base)
            == EditBlockers(controls[..last], edits[..last], base)
               + if edits[last].blocker.None? then []
                 else [ParseBlocked(base + controls[last].binding, edits[last].blocker.value)]
  {
  }

  lemma EarlierEditBlocks(controls: seq<ControlDefinition>, edits: seq<EditState>, base: Pointer, last: nat, b: Blocker)
    requires |controls| == |edits| && last <= |edits|
    ensures forall c: nat | c < last ::
              EditBlocks(controls, edits, base, c, b) <==> EditBlocks(controls[..last], edits[..last], base, c, b)
    ensures forall c: nat | c >= last :: !EditBlocks(controls[..last], edits[..last], base, c, b)
  {
  }

  lemma {:induction false} EditBlockersAreExact(controls: seq<ControlDefinition>, edits: seq<EditState>, base: Pointer, b: Blocker)
    requires |controls| == |edits|
    ensures b in EditBlockers(controls, edits, base) <==> exists c: nat :: EditBlocks(controls, edits, base, c, b)
    decreases |controls|
  {
    if controls == [] {
    } else {
      hide EditBlockers;
      var last := |controls| - 1;
      EditBlockersAreExact(controls[..last], edits[..last], base, b);
      LastEditBlocks(controls, edits, base, b);
      EarlierEditBlocks(controls, edits, base, last, b);
      BlocksAreInside(controls, edits, base, b);
      hide EditBlocks;
    }
  }

  lemma BlocksAreInside(controls: seq<ControlDefinition>, edits: seq<EditState>, base: Pointer, b: Blocker)
    requires |controls| == |edits|
    ensures forall c: nat | EditBlocks(controls, edits, base, c, b) :: c < |edits|
  {
  }

  ghost predicate ItemBlocks(list: ArrayDefinition, items: seq<Item>, i: nat, b: Blocker)
    requires ItemsShaped(items, |list.controls|)
  {
    i < |items| && exists c: nat :: EditBlocks(list.controls, items[i].edits, ItemPointer(list.binding, i), c, b)
  }

  lemma {:induction false} ItemBlockersAreExact(list: ArrayDefinition, items: seq<Item>, b: Blocker)
    requires ItemsShaped(items, |list.controls|)
    ensures b in ItemBlockers(list, items) <==> exists i: nat :: ItemBlocks(list, items, i, b)
  {
    if items != [] {
      hide EditBlockers, EditBlocks, ItemPointer;
      var last := |items| - 1;
      ItemBlockersAreExact(list, items[..last], b);
      EditBlockersAreExact(list.controls, items[last].edits, ItemPointer(list.binding, last), b);
      forall i: nat | i < last ensures ItemBlocks(list, items, i, b) <==> ItemBlocks(list, items[..last], i, b) {
      }
      assert ItemBlocks(list, items, last, b) <==> b in EditBlockers(list.controls, items[last].edits, ItemPointer(list.binding, last));
    }
  }

  ghost predicate ArrayBlocks(lists: seq<ArrayDefinition>, arrays: seq<ArrayState>, k: nat, b: Blocker)
    requires |lists| == |arrays| && AllShaped(lists, arrays)
  {
    k < |arrays| && exists i: nat :: ItemBlocks(lists[k], arrays[k].items, i, b)
  }

  lemma {:induction false} ArrayBlockersAreExact(lists: seq<ArrayDefinition>, arrays: seq<ArrayState>, b: Blocker)
    requires |lists| == |arrays| && AllShaped(lists, arrays)
    ensures b in ArrayBlockers(lists, arrays) <==> exists k: nat :: ArrayBlocks(lists, arrays, k, b)
  {
    if lists != [] {
      var last := |lists| - 1;
      ArrayBlockersAreExact(lists[..last], arrays[..last], b);
      ItemBlockersAreExact(lists[last], arrays[last].items, b);
      hide ItemBlockers, ItemBlocks;
      assert b in ArrayBlockers(lists, arrays) <==>
             b in ArrayBlockers(lists[..last], arrays[..last]) || b in ItemBlockers(lists[last], arrays[last].items);
      hide ArrayBlockers;
      LastArrayBlocks(lists, arrays, b);
    }
  }

  lemma LastArrayBlocks(lists: seq<ArrayDefinition>, arrays: seq<ArrayState>, b: Blocker)
    requires |lists| == |arrays| && AllShaped(lists, arrays) && lists != []
    ensures var last := |lists| - 1;
            (exists k: nat :: ArrayBlocks(lists, arrays, k, b)) <==>
            || (exists k: nat :: ArrayBlocks(lists[..last], arrays[..last], k, b))
            || (exists i: nat :: ItemBlocks(lists[last], arrays[last].items, i, b))
  {
    hide ItemBlocks;
    var last := |lists| - 1;
    forall k: nat | k < last ensures ArrayBlocks(lists, arrays, k, b) <==> ArrayBlocks(lists[..last], arrays[..last], k, b) {
    }
    assert ArrayBlocks(lists, arrays, last, b) <==> exists i: nat :: ItemBlocks(lists[last], arrays[last].items, i, b);
  }

  lemma {:induction false} FindingBlockersAreExact(source: Bytes, findings: seq<Finding>, b: Blocker)
    ensures b in FindingBlockers(source, findings) <==>
            exists f :: f in findings && f.blocking && b == ExternallyBlocked(source, f.pointer, f.code)
  {
    if findings != [] {
      var front, last := findings[..|findings| - 1], findings[|findings| - 1];
      FindingBlockersAreExact(source, front, b);
      assert findings == front + [last];
      assert forall f :: f in findings <==> f in front || f == last;
    }
  }

  ghost predicate BatchBlocks(batch: Batch, b: Blocker) {
    exists f :: f in batch.findings && f.blocking && b == ExternallyBlocked(batch.source, f.pointer, f.code)
  }

  lemma {:induction false} BatchBlockersAreExact(batches: seq<Batch>, b: Blocker)
    ensures b in BatchBlockers(batches) <==> exists batch :: batch in batches && BatchBlocks(batch, b)
  {
    if batches != [] {
      hide FindingBlockers, BatchBlocks;
      var front, last := batches[..|batches| - 1], batches[|batches| - 1];
      BatchBlockersAreExact(front, b);
      OneBatchBlocks(last, b);
      assert batches == front + [last];
      assert forall batch :: batch in batches <==> batch in front || batch == last;
    }
  }

  lemma OneBatchBlocks(batch: Batch, b: Blocker)
    ensures b in FindingBlockers(batch.source, batch.findings) <==> BatchBlocks(batch, b)
  {
    FindingBlockersAreExact(batch.source, batch.findings, b);
  }

  /** A control whose text could not be read blocks at its current binding. */
  ghost predicate PlaceBlocks(d: Definition, s: State, place: Place, b: Blocker)
    requires Shaped(d, s)
  {
    && Exists(d, s, place) && EditAt(d, s, place).blocker.Some?
    && b == ParseBlocked(BindingOf(d, place), EditAt(d, s, place).blocker.value)
  }

  /** The blockers are the controls that could not be read and the blocking findings, and nothing else. */
  lemma BlockersAreExact(d: Definition, s: State, b: Blocker)
    requires Shaped(d, s)
    ensures b in Blockers(d, s) <==>
            (exists place :: PlaceBlocks(d, s, place, b)) || (exists batch :: batch in s.batches && BatchBlocks(batch, b))
  {
    assert AllShaped(d.arrays, s.arrays);
    EditBlockersAreExact(d.controls, s.edits, [], b);
    ArrayBlockersAreExact(d.arrays, s.arrays, b);
    BatchBlockersAreExact(s.batches, b);
    PlacesAreListed(d, s, b);
    hide EditBlockers, ArrayBlockers, BatchBlockers, PlaceBlocks, BatchBlocks, EditBlocks, ArrayBlocks;
  }

  lemma PlacesAreListed(d: Definition, s: State, b: Blocker)
    requires Shaped(d, s)
    ensures AllShaped(d.arrays, s.arrays)
    ensures (exists place :: PlaceBlocks(d, s, place, b)) <==>
            || (exists c: nat :: EditBlocks(d.controls, s.edits, [], c, b))
            || (exists k: nat :: ArrayBlocks(d.arrays, s.arrays, k, b))
  {
    assert forall c: nat | c < |d.controls| :: [] + d.controls[c].binding == d.controls[c].binding;
    if place :| PlaceBlocks(d, s, place, b) {
      match place
      case Static(c) => assert EditBlocks(d.controls, s.edits, [], c, b);
      case InItem(k, i, c) =>
        assert EditBlocks(d.arrays[k].controls, s.arrays[k].items[i].edits, ItemPointer(d.arrays[k].binding, i), c, b);
        assert ItemBlocks(d.arrays[k], s.arrays[k].items, i, b);
        assert ArrayBlocks(d.arrays, s.arrays, k, b);
    }
    if c: nat :| EditBlocks(d.controls, s.edits, [], c, b) {
      assert PlaceBlocks(d, s, Static(c), b);
    }
    if k: nat :| ArrayBlocks(d.arrays, s.arrays, k, b) {
      var i: nat :| ItemBlocks(d.arrays[k], s.arrays[k].items, i, b);
      var c: nat :| EditBlocks(d.arrays[k].controls, s.arrays[k].items[i].edits, ItemPointer(d.arrays[k].binding, i), c, b);
      assert PlaceBlocks(d, s, InItem(k, i, c), b);
    }
  }

  /** A submission that succeeds has read everything that was typed: every buffer stands for what is submitted. */
  lemma SubmittedDataHoldsTheInput(d: Definition, s: State, place: Place)
    requires Sound(d, s) && Honest(d, s) && PrepareSubmission(d, s).1.Ok?
    requires Exists(d, s, place) && EditAt(d, s, place).buffer.Some?
    ensures var snapshot, control := PrepareSubmission(d, s).1.value, ControlAt(d, place);
            && Resolve(snapshot.data, BindingOf(d, place)).Some?
            && Meant(control.kind, EditAt(d, s, place).buffer.value).Some?
            && JsonEqual(Resolve(snapshot.data, BindingOf(d, place)).value,
                         Meant(control.kind, EditAt(d, s, place).buffer.value).value)
  {
    hide ValuesAt, HonestEdits, HonestRows, Identified, Current, Resolve, Meant, JsonEqual, Blockers;
    HonestPlace(d, s, place);
    if EditAt(d, s, place).blocker.Some? {
      var b := ParseBlocked(BindingOf(d, place), EditAt(d, s, place).blocker.value);
      assert PlaceBlocks(d, s, place, b);
      BlockersAreExact(d, s, b);
    }
  }
}
