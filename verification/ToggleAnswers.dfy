/** When toggling an option is accepted, what it answers, and the whole form it leaves. */
module ToggleAnswers {
  import opened Bytes
  import opened Json
  import opened FormModel
  import opened ArrayOperations
  import opened Toggles
  import opened Effects
  import opened RowAnswers

  ghost predicate Rising(indices: seq<nat>, bound: nat) {
    && (forall a | 0 <= a < |indices| :: indices[a] < bound)
    && forall a, b | 0 <= a < b < |indices| :: indices[a] < indices[b]
  }

  /** The places, in order, of the elements that equal a value, or of those that do not. */
  ghost predicate Picks(indices: seq<nat>, values: seq<Json>, v: Json, equal: bool) {
    && Rising(indices, |values|)
    && (forall a | 0 <= a < |indices| :: JsonEqual(values[indices[a]], v) == equal)
    && forall i | 0 <= i < |values| && JsonEqual(values[i], v) == equal :: i in indices
  }

  /** What stands at some places. */
  function Picked<T>(xs: seq<T>, indices: seq<nat>): (picked: seq<T>)
    requires Rising(indices, |xs|)
    ensures |picked| == |indices| && forall a | 0 <= a < |indices| :: picked[a] == xs[indices[a]]
  {
    seq(|indices|, a requires 0 <= a < |indices| => xs[indices[a]])
  }

  ghost function IndicesOf(values: seq<Json>, v: Json, equal: bool): seq<nat> {
    if values == [] then []
    else
      var last := |values| - 1;
      IndicesOf(values[..last], v, equal) + if JsonEqual(values[last], v) == equal then [last] else []
  }

  lemma PicksOneMore(indices: seq<nat>, values: seq<Json>, more: Json, v: Json, equal: bool)
    requires Picks(indices, values, v, equal)
    ensures Picks(indices + if JsonEqual(more, v) == equal then [|values|] else [], values + [more], v, equal)
  {
    hide JsonEqual;
    var now := indices + if JsonEqual(more, v) == equal then [|values|] else [];
    forall i | 0 <= i <= |values| && JsonEqual((values + [more])[i], v) == equal ensures i in now {
      if i < |values| {
        var a :| 0 <= a < |indices| && indices[a] == i;
        assert now[a] == i;
      } else {
        assert now[|indices|] == i;
      }
    }
  }

  lemma {:induction false} IndicesArePicked(values: seq<Json>, v: Json, equal: bool)
    ensures Picks(IndicesOf(values, v, equal), values, v, equal)
    decreases |values|
  {
    if values == [] {
    } else {
      hide JsonEqual, Picks;
      var last := |values| - 1;
      IndicesArePicked(values[..last], v, equal);
      PicksOneMore(IndicesOf(values[..last], v, equal), values[..last], values[last], v, equal);
      assert values == values[..last] + [values[last]];
    }
  }

  lemma {:induction false} RowsArePicked(rows: seq<Row>, v: Json)
    ensures var kept, gone := IndicesOf(RowValues(rows), v, false), IndicesOf(RowValues(rows), v, true);
            && Rising(kept, |rows|) && Rising(gone, |rows|)
            && Without(rows, v) == Picked(rows, kept) && With(rows, v) == Picked(rows, gone)
    decreases |rows|
  {
    hide JsonEqual, Picks, With, Without, IndicesOf, Rising, Picked;
    IndicesRise(RowValues(rows), v, false);
    IndicesRise(RowValues(rows), v, true);
    if rows == [] {
      NoRows(rows, v);
    } else {
      var last := |rows| - 1;
      RowsArePicked(rows[..last], v);
      assert RowValues(rows)[..last] == RowValues(rows[..last]);
      LastRow(rows, v);
      IndicesRise(RowValues(rows[..last]), v, false);
      IndicesRise(RowValues(rows[..last]), v, true);
      PickedFromFront(rows, IndicesOf(RowValues(rows[..last]), v, false));
      PickedFromFront(rows, IndicesOf(RowValues(rows[..last]), v, true));
    }
  }

  lemma NoRows(rows: seq<Row>, v: Json)
    requires rows == []
    ensures IndicesOf(RowValues(rows), v, false) == [] && IndicesOf(RowValues(rows), v, true) == []
    ensures Rising([], 0) && Without(rows, v) == Picked(rows, []) && With(rows, v) == Picked(rows, [])
  {
  }

  lemma IndicesRise(values: seq<Json>, v: Json, equal: bool)
    ensures Rising(IndicesOf(values, v, equal), |values|)
  {
    IndicesArePicked(values, v, equal);
  }

  lemma LastRow(rows: seq<Row>, v: Json)
    requires rows != []
    ensures var last, front, equal := |rows| - 1, rows[..|rows| - 1], JsonEqual(rows[|rows| - 1].value, v);
            && Without(rows, v) == Without(front, v) + (if equal then [] else [rows[last]])
            && With(rows, v) == With(front, v) + (if equal then [rows[last]] else [])
            && IndicesOf(RowValues(rows), v, false)
            == IndicesOf(RowValues(rows)[..last], v, false) + (if equal then [] else [last])
            && IndicesOf(RowValues(rows), v, true)
            == IndicesOf(RowValues(rows)[..last], v, true) + (if equal then [last] else [])
  {
    hide JsonEqual;
  }

  lemma PickedFromFront<T>(xs: seq<T>, indices: seq<nat>)
    requires xs != [] && Rising(indices, |xs| - 1)
    ensures Picked(xs, indices) == Picked(xs[..|xs| - 1], indices)
    ensures Rising(indices + [|xs| - 1], |xs|)
    ensures Picked(xs, indices + [|xs| - 1]) == Picked(xs[..|xs| - 1], indices) + [xs[|xs| - 1]]
  {
  }

  // ------------------------------------------------------------------- when a toggle is accepted

  /** There is an array, or nothing but an object to hold one. */
  predicate HasRoomForArray(data: Json, binding: Pointer) {
    match Resolve(data, binding)
    case Some(present) => present.Array?
    case None => ObjectAbove(data, binding)
  }

  lemma CanToggleIsOffering(d: Definition, s: State, k: nat)
    requires WellFormedDefinition(d) && k < |d.arrays|
    ensures CanToggle(d, s, d.arrays[k].binding)
       <==> OffersChoices(d.arrays[k]) && HasRoomForArray(s.data, d.arrays[k].binding)
  {
    ArrayIsFound(d, k);
    hide ArrayIndex, Resolve;
  }

  /** The option a value names: the first that it equals. */
  ghost predicate IsOptionOf(options: seq<Json>, value: Json, o: nat) {
    && o < |options| && JsonEqual(options[o], value)
    && forall p | 0 <= p < o :: !JsonEqual(options[p], value)
  }

  ghost predicate Accepts(list: ArrayDefinition, data: Json, value: Json) {
    && OffersChoices(list) && HasRoomForArray(data, list.binding)
    && exists o :: 0 <= o < |list.controls[0].choices| && JsonEqual(list.controls[0].choices[o], value)
  }

  /** Toggling is accepted exactly for the options of a multiple choice that has room for an array. */
  lemma WhenTogglesAreAccepted(d: Definition, s: State, k: nat, value: Json)
    requires WellFormedDefinition(d) && Sound(d, s) && k < |d.arrays|
    ensures var (t, r) := Toggle(d, s, d.arrays[k].binding, value);
            && (r.Ok? <==> Accepts(d.arrays[k], s.data, value))
            && (r.Err? ==> t == s && r == Err(OperationNotAllowed))
  {
    CanToggleIsOffering(d, s, k);
    ArrayIsFound(d, k);
    hide JsonEqual, ArrayIndex, HasRoomForArray, CanToggle, Carries, Without, With, Place, Identified;
  }

  lemma NoArrayIsToggled(d: Definition, s: State, binding: Pointer, value: Json)
    requires Shaped(d, s) && Aligned(d, s) && forall k | 0 <= k < |d.arrays| :: d.arrays[k].binding != binding
    ensures Toggle(d, s, binding, value) == (s, Err(OperationNotAllowed))
  {
  }

  // --------------------------------------------------------------------------- what it answers

  /** Elements and items at some places are kept; those at the others are gone, and their identities are listed. */
  ghost predicate KeptOnly(d: Definition, s: State, t: State, k: nat, before: seq<Json>, kept: seq<nat>)
    requires k < |d.arrays| && k < |s.arrays| && Rising(kept, |before|) && |before| == |s.arrays[k].items|
  {
    && HoldsElements(s, t, d.arrays[k].binding, Picked(before, kept))
    && OnlyItems(s, t, k) && t.nextIdentity == s.nextIdentity && t.edits == s.edits
    && t.arrays[k].items == Picked(s.arrays[k].items, kept)
  }

  lemma ToggleTo(d: Definition, s: State, k: nat, value: Json, o: nat)
    requires WellFormedDefinition(d) && Shaped(d, s) && Aligned(d, s) && k < |d.arrays|
    requires Accepts(d.arrays[k], s.data, value) && IsOptionOf(d.arrays[k].controls[0].choices, value, o)
    ensures CanHoldArray(d, s, k)
    ensures var rows, v, options := Rows(d, s, k), d.arrays[k].controls[0].choices[o], d.arrays[k].controls[0].choices;
            Toggle(d, s, d.arrays[k].binding, value)
            == if Carries(rows, v) then
                 (DataChanged(WithRows(d, s, k, Without(rows, v), s.nextIdentity)),
                  Ok(Excluded(RowIds(With(rows, v)), RowIds(Without(rows, v)[UpTo(rows, v)..]))))
               else
                 (InsertedRow(d, s, k, Place(options, o, rows), v),
                  Ok(Included(Inserted(s.nextIdentity, RowIds(rows[Place(options, o, rows)..])))))
  {
    CanToggleIsOffering(d, s, k);
    TogglableHolds(d, s, d.arrays[k].binding);
    ArrayIsFound(d, k);
    OptionIsFirst(d.arrays[k].controls[0].choices, value);
    assert d.arrays[k].Options() == d.arrays[k].controls[0].choices;
    hide *;
    ToggleUnfoldsTo(d, s, k, value, o);
  }

  lemma ToggleUnfoldsTo(d: Definition, s: State, k: nat, value: Json, o: nat)
    requires Shaped(d, s) && Aligned(d, s) && k < |d.arrays| && CanToggle(d, s, d.arrays[k].binding)
    requires ArrayIndex(d.arrays, d.arrays[k].binding) == Some(k)
    requires OptionIndex(d.arrays[k].Options(), value) == Some(o)
    ensures var rows, options := Rows(d, s, k), d.arrays[k].Options();
            Toggle(d, s, d.arrays[k].binding, value)
            == if Carries(rows, options[o]) then
                 (DataChanged(WithRows(d, s, k, Without(rows, options[o]), s.nextIdentity)),
                  Ok(Excluded(RowIds(With(rows, options[o])), RowIds(Without(rows, options[o])[UpTo(rows, options[o])..]))))
               else
                 (InsertedRow(d, s, k, Place(options, o, rows), options[o]),
                  Ok(Included(Inserted(s.nextIdentity, RowIds(rows[Place(options, o, rows)..])))))
  {
    hide JsonEqual, ArrayIndex, OptionIndex, CanToggle, Carries, Without, With, Place, UpTo, WithRows, InsertedRow,
         DataChanged, ArrayDefinition.Options;
  }

  /** The carriers of a value leave and everything else stays, in order; the answer lists who left, and who moved up. */
  ghost predicate LeavesWithout(d: Definition, s: State, k: nat, v: Json, kept: seq<nat>, gone: seq<nat>, t: State,
                                r: Result<Toggled, EditError>)
    requires Shaped(d, s) && Aligned(d, s) && k < |d.arrays|
  {
    var values, ids := ValuesAt(s.data, d.arrays[k].binding), Ids(s.arrays[k].items);
    && Picks(kept, values, v, false) && Picks(gone, values, v, true) && gone != [] && gone[0] <= |kept|
    && KeptOnly(d, s, t, k, values, kept) && RecordsDataChange(s, t)
    && r == Ok(Excluded(Picked(ids, gone), Picked(ids, kept)[gone[0]..]))
  }

  /** Toggling an option that is in lets exactly the elements that equal it leave, with their items. */
  lemma TogglingOutIsExact(d: Definition, s: State, k: nat, value: Json, o: nat) returns (kept: seq<nat>, gone: seq<nat>)
    requires WellFormedDefinition(d) && Sound(d, s) && k < |d.arrays|
    requires Accepts(d.arrays[k], s.data, value) && IsOptionOf(d.arrays[k].controls[0].choices, value, o)
    requires exists i :: 0 <= i < |ValuesAt(s.data, d.arrays[k].binding)|
               && JsonEqual(ValuesAt(s.data, d.arrays[k].binding)[i], d.arrays[k].controls[0].choices[o])
    ensures var (t, r) := Toggle(d, s, d.arrays[k].binding, value);
            LeavesWithout(d, s, k, d.arrays[k].controls[0].choices[o], kept, gone, t, r)
  {
    var values, rows, v := ValuesAt(s.data, d.arrays[k].binding), Rows(d, s, k), d.arrays[k].controls[0].choices[o];
    kept, gone := IndicesOf(values, v, false), IndicesOf(values, v, true);
    hide IndicesOf, LeavesWithout, IsOptionOf, JsonEqual, Toggle;
    ToggleOutUnfolds(d, s, k, value, o);
    hide *;
    IndicesArePicked(values, v, false);
    IndicesArePicked(values, v, true);
    RowsLeave(d, s, k, v, kept, gone);
  }

  lemma RowsLeave(d: Definition, s: State, k: nat, v: Json, kept: seq<nat>, gone: seq<nat>)
    requires Shaped(d, s) && Aligned(d, s) && k < |d.arrays| && CanHoldArray(d, s, k)
    requires var values := ValuesAt(s.data, d.arrays[k].binding); Picks(kept, values, v, false) && Picks(gone, values, v, true)
    requires gone != [] && gone[0] <= |kept|
    ensures Rising(kept, |Rows(d, s, k)|) && Rising(gone, |Rows(d, s, k)|)
    ensures var rows := Rows(d, s, k);
            LeavesWithout(d, s, k, v, kept, gone,
                          DataChanged(WithRows(d, s, k, Picked(rows, kept), s.nextIdentity)),
                          Ok(Excluded(RowIds(Picked(rows, gone)), RowIds(Picked(rows, kept)[gone[0]..]))))
  {
    var values, rows := ValuesAt(s.data, d.arrays[k].binding), Rows(d, s, k);
    assert |rows| == |values| && RowIds(rows) == Ids(s.arrays[k].items);
    assert Rising(kept, |rows|) && Rising(gone, |rows|);
    hide JsonEqual, Resolve, ValuesAt, WithRows, Picks, CanHoldArray, KeptOnly, Rows;
    KeptRowsAreKept(d, s, k, kept);
    PickedIds(rows, kept, gone[0]);
    PickedIds(rows, gone, 0);
    WithRowsUnfolds(d, s, k, Picked(rows, kept), s.nextIdentity);
  }

  lemma ToggleOutUnfolds(d: Definition, s: State, k: nat, value: Json, o: nat)
    requires WellFormedDefinition(d) && Sound(d, s) && k < |d.arrays|
    requires Accepts(d.arrays[k], s.data, value) && IsOptionOf(d.arrays[k].controls[0].choices, value, o)
    requires exists i :: 0 <= i < |ValuesAt(s.data, d.arrays[k].binding)|
               && JsonEqual(ValuesAt(s.data, d.arrays[k].binding)[i], d.arrays[k].controls[0].choices[o])
    ensures CanHoldArray(d, s, k)
    ensures var rows, values, v := Rows(d, s, k), ValuesAt(s.data, d.arrays[k].binding), d.arrays[k].controls[0].choices[o];
            var kept, gone := IndicesOf(values, v, false), IndicesOf(values, v, true);
            && Rising(kept, |rows|) && Rising(gone, |rows|) && gone != [] && gone[0] <= |kept|
            && Toggle(d, s, d.arrays[k].binding, value)
            == (DataChanged(WithRows(d, s, k, Picked(rows, kept), s.nextIdentity)),
                Ok(Excluded(RowIds(Picked(rows, gone)), RowIds(Picked(rows, kept)[gone[0]..]))))
  {
    var rows, v := Rows(d, s, k), d.arrays[k].controls[0].choices[o];
    assert RowValues(rows) == ValuesAt(s.data, d.arrays[k].binding);
    CarriersAreElements(rows, v);
    IndicesArePicked(RowValues(rows), v, true);
    hide JsonEqual, Toggle, Carries, With, Without, IndicesOf, Accepts, IsOptionOf, CanHoldArray, Identified, ValuesAt,
         WithRows, UpTo, Picks, Current;
    ToggleTo(d, s, k, value, o);
    RowsArePicked(rows, v);
    CarriersAreGone(rows, v, IndicesOf(RowValues(rows), v, true));
  }

  lemma PickedIds(rows: seq<Row>, indices: seq<nat>, from: nat)
    requires Rising(indices, |rows|) && from <= |indices|
    ensures RowIds(Picked(rows, indices)[from..]) == Picked(RowIds(rows), indices)[from..]
    ensures RowIds(Picked(rows, indices)) == Picked(RowIds(rows), indices)
  {
  }

  lemma KeptRowsAreKept(d: Definition, s: State, k: nat, kept: seq<nat>)
    requires Shaped(d, s) && Aligned(d, s) && k < |d.arrays| && CanHoldArray(d, s, k)
    requires Rising(kept, |Rows(d, s, k)|)
    ensures KeptOnly(d, s, DataChanged(WithRows(d, s, k, Picked(Rows(d, s, k), kept), s.nextIdentity)), k,
                     ValuesAt(s.data, d.arrays[k].binding), kept)
  {
    var rows := Rows(d, s, k);
    WithRowsHolds(d, s, k, Picked(rows, kept), s.nextIdentity);
    WithRowsUnfolds(d, s, k, Picked(rows, kept), s.nextIdentity);
    PickedParts(rows, kept, s.arrays[k].items, ValuesAt(s.data, d.arrays[k].binding));
    hide WithRows, Resolve, OnlyDataAt, ValuesAt, CanHoldArray;
  }

  lemma WithRowsUnfolds(d: Definition, s: State, k: nat, rows: seq<Row>, next: nat)
    requires k < |d.arrays| && k < |s.arrays|
    ensures var t := WithRows(d, s, k, rows, next);
            && t.nextIdentity == next && t.edits == s.edits && t.baseline == s.baseline && t.baselineIds == s.baselineIds
            && t.submissionAttempted == s.submissionAttempted && t.dataRevision == s.dataRevision
            && t.stateRevision == s.stateRevision && t.batches == s.batches
  {
  }

  lemma PickedParts(rows: seq<Row>, indices: seq<nat>, items: seq<Item>, values: seq<Json>)
    requires |rows| == |items| == |values| && Rising(indices, |rows|)
    requires forall i | 0 <= i < |rows| :: rows[i] == Row(items[i].identity, items[i].edits, values[i])
    ensures RowValues(Picked(rows, indices)) == Picked(values, indices)
    ensures RowItems(Picked(rows, indices)) == Picked(items, indices)
    ensures RowIds(Picked(rows, indices)) == Picked(RowIds(rows), indices)
  {
  }

  lemma CarriersAreGone(rows: seq<Row>, v: Json, gone: seq<nat>)
    requires Picks(gone, RowValues(rows), v, true)
    ensures Carries(rows, v) <==> gone != []
    ensures gone != [] ==> UpTo(rows, v) == gone[0]
  {
    hide JsonEqual;
    if Carries(rows, v) {
      var i :| 0 <= i < |rows| && JsonEqual(rows[i].value, v);
      assert i in gone;
      FirstCarrierBound(rows, v);
      var first := FirstCarrier(rows, v);
      assert JsonEqual(RowValues(rows)[first], v) && first in gone;
      assert gone[0] in gone;
    }
    if gone != [] {
      assert gone[0] in gone;
    }
  }

  /** The option comes in: a blank item in the place its option has among those of the others. */
  lemma TogglingInIsExact(d: Definition, s: State, k: nat, value: Json, o: nat) returns (i: nat)
    requires WellFormedDefinition(d) && Sound(d, s) && k < |d.arrays|
    requires Accepts(d.arrays[k], s.data, value) && IsOptionOf(d.arrays[k].controls[0].choices, value, o)
    requires forall j | 0 <= j < |ValuesAt(s.data, d.arrays[k].binding)| ::
               !JsonEqual(ValuesAt(s.data, d.arrays[k].binding)[j], d.arrays[k].controls[0].choices[o])
    ensures var values, options := ValuesAt(s.data, d.arrays[k].binding), d.arrays[k].controls[0].choices;
            && |values| == |s.arrays[k].items| && i <= |values|
            && (i < |values| ==> OptionAfter(options, o, values[i]))
            && (forall j | 0 <= j < i :: !OptionAfter(options, o, values[j]))
            && var (t, r) := Toggle(d, s, d.arrays[k].binding, value);
               && InsertedAt(d, s, t, k, i, options[o], values) && RecordsDataChange(s, t)
               && r.Ok? && r.value.Included? && r.value.inserted.identity == s.nextIdentity
               && ListsFrom(s.arrays[k].items, i, r.value.inserted.shifted)
  {
    var values, rows, options := ValuesAt(s.data, d.arrays[k].binding), Rows(d, s, k), d.arrays[k].controls[0].choices;
    i := Place(options, o, rows);
    CarriersAreElements(rows, options[o]);
    assert RowValues(rows) == values;
    hide Toggle, Accepts, IsOptionOf, Identified, InsertedAt, ValuesAt, InsertedRow, OptionAfter, ComesLater, JsonEqual,
         Place, Carries, Current, CanHoldArray, RecordsDataChange;
    LaterIsAfter(options, o, rows);
    ToggleTo(d, s, k, value, o);
    InsertedRowIsInserted(d, s, k, i, options[o]);
    IdsFrom(s.arrays[k].items, rows, i);
  }

  lemma CarriersAreElements(rows: seq<Row>, v: Json)
    ensures Carries(rows, v) <==> exists j :: 0 <= j < |RowValues(rows)| && JsonEqual(RowValues(rows)[j], v)
  {
    hide JsonEqual;
    if j :| 0 <= j < |RowValues(rows)| && JsonEqual(RowValues(rows)[j], v) {
      assert JsonEqual(rows[j].value, v);
    }
    if i :| 0 <= i < |rows| && JsonEqual(rows[i].value, v) {
      assert JsonEqual(RowValues(rows)[i], v);
    }
  }

  lemma IdsFrom(items: seq<Item>, rows: seq<Row>, i: nat)
    requires i <= |items| == |rows| && forall j | 0 <= j < |rows| :: rows[j].identity == items[j].identity
    ensures ListsFrom(items, i, RowIds(rows[i..]))
  {
    var ids := RowIds(rows[i..]);
    forall j | 0 <= j < |ids| ensures ids[j] == items[i + j].identity {
      assert rows[i..][j] == rows[i + j];
    }
  }

  /** The value's option comes after the given one. */
  ghost predicate OptionAfter(options: seq<Json>, o: nat, v: Json) {
    exists p: nat :: IsOptionOf(options, v, p) && p > o
  }

  lemma LaterIsAfter(options: seq<Json>, o: nat, rows: seq<Row>)
    ensures forall j | 0 <= j < |rows| :: ComesLater(options, o, rows[j].value) <==> OptionAfter(options, o, rows[j].value)
  {
    forall j | 0 <= j < |rows|
      ensures ComesLater(options, o, rows[j].value) <==> OptionAfter(options, o, rows[j].value)
    {
      OptionIsFirst(options, rows[j].value);
    }
  }

  lemma OptionIsFirst(options: seq<Json>, v: Json)
    ensures forall p: nat :: IsOptionOf(options, v, p) <==> OptionIndex(options, v) == Some(p)
  {
    hide JsonEqual;
  }
}
