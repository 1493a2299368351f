/** The array operations, as list operations on rows. */
module ArrayOperations {
  import opened Bytes
  import opened Json
  import opened FormModel

  datatype EditError = UnknownControl | UnresolvedControl | OperationNotAllowed

  function ArrayIndex(lists: seq<ArrayDefinition>, binding: Pointer): (k: Option<nat>)
    ensures k.Some? ==> k.value < |lists| && lists[k.value].binding == binding
    ensures k.None? ==> forall i | 0 <= i < |lists| :: lists[i].binding != binding
  {
    if lists == [] then None
    else if lists[0].binding == binding then Some(0)
    else
      var rest := ArrayIndex(lists[1..], binding);
      if rest.None? then None else Some(rest.value + 1)
  }

  function ItemIndex(items: seq<Item>, identity: nat): (i: Option<nat>)
    ensures i.Some? ==> i.value < |items| && items[i.value].identity == identity
    ensures i.None? ==> forall j | 0 <= j < |items| :: items[j].identity != identity
  {
    if items == [] then None
    else if items[0].identity == identity then Some(0)
    else
      var rest := ItemIndex(items[1..], identity);
      if rest.None? then None else Some(rest.value + 1)
  }

  // ---------------------------------------------------------------- exchanging the rows of one array

  /** The same form with other rows in one array: items and data together. */
  function WithRows(d: Definition, s: State, k: nat, rows: seq<Row>, next: nat): State
    requires k < |d.arrays| && k < |s.arrays|
  {
    var data := SetBound(s.data, d.arrays[k].binding, Array(RowValues(rows)));
    s.(data := if data.Some? then data.value else s.data,
       arrays := s.arrays[k := s.arrays[k].(items := RowItems(rows))],
       nextIdentity := next)
  }

  /** What every change of the data does besides. */
  function DataChanged(s: State): State {
    s.(batches := [], dataRevision := s.dataRevision + 1, stateRevision := s.stateRevision + 1)
  }

  ghost predicate CanHoldArray(d: Definition, s: State, k: nat)
    requires k < |d.arrays|
  {
    SetBound(s.data, d.arrays[k].binding, Array([])).Some?
  }

  lemma HoldsAnyArray(d: Definition, s: State, k: nat, value: Json)
    requires k < |d.arrays|
    ensures CanHoldArray(d, s, k) <==> SetBound(s.data, d.arrays[k].binding, value).Some?
  {
    WhereSetBoundSucceeds(s.data, d.arrays[k].binding, Array([]));
    WhereSetBoundSucceeds(s.data, d.arrays[k].binding, value);
  }

  lemma PresentArraysHold(d: Definition, s: State, k: nat)
    requires k < |d.arrays| && IsArrayAt(s.data, d.arrays[k].binding)
    ensures CanHoldArray(d, s, k)
  {
    WhereSetBoundSucceeds(s.data, d.arrays[k].binding, Array([]));
  }

  /** Nothing but the one array changes. */
  lemma OtherDataStays(d: Definition, s: State, k: nat, rows: seq<Row>, next: nat)
    requires WellFormedDefinition(d) && k < |d.arrays| == |s.arrays| && CanHoldArray(d, s, k)
    ensures ValuesAt(WithRows(d, s, k, rows, next).data, d.arrays[k].binding) == RowValues(rows)
    ensures forall l | 0 <= l < |d.arrays| && l != k ::
              ValuesAt(WithRows(d, s, k, rows, next).data, d.arrays[l].binding) == ValuesAt(s.data, d.arrays[l].binding)
    ensures forall c | 0 <= c < |d.controls| ::
              Resolve(WithRows(d, s, k, rows, next).data, d.controls[c].binding)
              == Resolve(s.data, d.controls[c].binding)
  {
    hide SetBound, Resolve;
    var binding, list := d.arrays[k].binding, Array(RowValues(rows));
    HoldsAnyArray(d, s, k, list);
    SetBoundReadsBack(s.data, binding, list);
    forall l | 0 <= l < |d.arrays| && l != k
      ensures Resolve(WithRows(d, s, k, rows, next).data, d.arrays[l].binding) == Resolve(s.data, d.arrays[l].binding)
    {
      assert Apart(d.arrays[if k < l then k else l].binding, d.arrays[if k < l then l else k].binding);
      SetBoundFrame(s.data, binding, list, d.arrays[l].binding);
    }
    forall c | 0 <= c < |d.controls|
      ensures Resolve(WithRows(d, s, k, rows, next).data, d.controls[c].binding) == Resolve(s.data, d.controls[c].binding)
    {
      SetBoundFrame(s.data, binding, list, d.controls[c].binding);
    }
  }

  /** Rows that may take the place of others: well shaped, and with identities of their own. */
  ghost predicate MayReplace(list: ArrayDefinition, former: seq<Row>, rows: seq<Row>, first: nat, next: nat) {
    && (forall i | 0 <= i < |rows| :: |rows[i].edits| == |list.controls|)
    && (forall i | 0 <= i < |rows| :: rows[i].identity in RowIds(former) || first <= rows[i].identity < next)
    && forall i, j | 0 <= i < j < |rows| :: rows[i].identity != rows[j].identity
  }

  lemma WithRowsIsAligned(d: Definition, s: State, k: nat, rows: seq<Row>, next: nat)
    requires WellFormedDefinition(d) && Shaped(d, s) && Aligned(d, s)
    requires k < |d.arrays| && CanHoldArray(d, s, k)
    requires MayReplace(d.arrays[k], Rows(d, s, k), rows, s.nextIdentity, next)
    ensures Shaped(d, WithRows(d, s, k, rows, next)) && Aligned(d, WithRows(d, s, k, rows, next))
    ensures Rows(d, WithRows(d, s, k, rows, next), k) == rows
    ensures forall l | 0 <= l < |d.arrays| && l != k ::
              Rows(d, WithRows(d, s, k, rows, next), l) == Rows(d, s, l)
  {
    hide SetBound;
    OtherDataStays(d, s, k, rows, next);
  }

  lemma WithRowsIsIdentified(d: Definition, s: State, k: nat, rows: seq<Row>, next: nat)
    requires Shaped(d, s) && Aligned(d, s) && Identified(s) && k < |d.arrays| && s.nextIdentity <= next
    requires MayReplace(d.arrays[k], Rows(d, s, k), rows, s.nextIdentity, next)
    ensures Identified(WithRows(d, s, k, rows, next))
  {
    var t := WithRows(d, s, k, rows, next);
    assert RowIds(Rows(d, s, k)) == LiveIds(s.arrays)[k];
    assert Ids(RowItems(rows)) == RowIds(rows);
    assert LiveIds(t.arrays) == LiveIds(s.arrays)[k := RowIds(rows)];
    ReplacedIdsStayDistinct(LiveIds(s.arrays), s.nextIdentity, k, RowIds(rows), next);
    LaterIdsStayDistinct(s.baselineIds, s.nextIdentity, next);
  }

  lemma WithRowsIsHonest(d: Definition, s: State, k: nat, rows: seq<Row>, next: nat)
    requires WellFormedDefinition(d) && Shaped(d, s) && Aligned(d, s) && Honest(d, s)
    requires k < |d.arrays| && CanHoldArray(d, s, k)
    requires MayReplace(d.arrays[k], Rows(d, s, k), rows, s.nextIdentity, next)
    requires HonestRows(d.arrays[k], rows)
    ensures Shaped(d, WithRows(d, s, k, rows, next)) && Aligned(d, WithRows(d, s, k, rows, next))
    ensures Honest(d, WithRows(d, s, k, rows, next))
  {
    OtherDataStays(d, s, k, rows, next);
    WithRowsIsAligned(d, s, k, rows, next);
    hide SetBound, Resolve, HonestEdit, MayReplace, Rows;
  }

  /** Exchanging rows and recording that the data changed keeps the form sound, and honest with honest rows. */
  lemma RowsChangeIsSound(d: Definition, s: State, k: nat, rows: seq<Row>, next: nat)
    requires WellFormedDefinition(d) && Sound(d, s) && k < |d.arrays| && CanHoldArray(d, s, k)
    requires s.nextIdentity <= next && MayReplace(d.arrays[k], Rows(d, s, k), rows, s.nextIdentity, next)
    ensures Sound(d, DataChanged(WithRows(d, s, k, rows, next)))
    ensures Honest(d, s) && HonestRows(d.arrays[k], rows) ==> Honest(d, DataChanged(WithRows(d, s, k, rows, next)))
  {
    WithRowsIsAligned(d, s, k, rows, next);
    WithRowsIsIdentified(d, s, k, rows, next);
    if Honest(d, s) && HonestRows(d.arrays[k], rows) {
      WithRowsIsHonest(d, s, k, rows, next);
    }
    hide WithRows, HonestEdits, Resolve;
  }

  // ------------------------------------------------------------------------ lists of rows

  /** Every row is one of the former ones or newly made, and no identity is used twice. */
  ghost predicate DrawnFrom(list: ArrayDefinition, former: seq<Row>, rows: seq<Row>, first: nat, next: nat) {
    && (forall i | 0 <= i < |rows| ::
          || rows[i] in former
          || (first <= rows[i].identity < next && rows[i] == FreshRow(list, rows[i].identity, rows[i].value)))
    && forall i, j | 0 <= i < j < |rows| :: rows[i].identity != rows[j].identity
  }

  lemma DrawnRowsMayReplace(d: Definition, s: State, k: nat, rows: seq<Row>, next: nat)
    requires Shaped(d, s) && Aligned(d, s) && k < |d.arrays|
    requires DrawnFrom(d.arrays[k], Rows(d, s, k), rows, s.nextIdentity, next)
    ensures MayReplace(d.arrays[k], Rows(d, s, k), rows, s.nextIdentity, next)
    ensures Honest(d, s) ==> HonestRows(d.arrays[k], rows)
  {
    var former := Rows(d, s, k);
    forall i | 0 <= i < |rows|
      ensures |rows[i].edits| == |d.arrays[k].controls|
      ensures rows[i].identity in RowIds(former) || s.nextIdentity <= rows[i].identity < next
      ensures Honest(d, s) ==> HonestRow(d.arrays[k], rows[i])
    {
      if rows[i] in former {
        var j :| 0 <= j < |former| && former[j] == rows[i];
        assert RowIds(former)[j] == rows[i].identity;
      } else {
        UntouchedIsHonest(d.arrays[k].controls, rows[i].value);
      }
    }
  }

  ghost predicate DistinctRows(rows: seq<Row>, next: nat) {
    && (forall i | 0 <= i < |rows| :: rows[i].identity < next)
    && forall i, j | 0 <= i < j < |rows| :: rows[i].identity != rows[j].identity
  }

  lemma RowsAreDistinct(d: Definition, s: State, k: nat)
    requires Shaped(d, s) && Aligned(d, s) && Identified(s) && k < |d.arrays|
    ensures DistinctRows(Rows(d, s, k), s.nextIdentity)
  {
    var ids := LiveIds(s.arrays);
    forall i, j | 0 <= i < j < |Rows(d, s, k)| ensures Rows(d, s, k)[i].identity != Rows(d, s, k)[j].identity {
      assert ids[k][i] != ids[k][j];
    }
    forall i | 0 <= i < |Rows(d, s, k)| ensures Rows(d, s, k)[i].identity < s.nextIdentity {
      assert ids[k][i] < s.nextIdentity;
    }
  }

  function InsertAt<T>(xs: seq<T>, i: nat, x: T): seq<T>
    requires i <= |xs|
  {
    xs[..i] + [x] + xs[i..]
  }

  function RemoveAt<T>(xs: seq<T>, i: nat): seq<T>
    requires i < |xs|
  {
    xs[..i] + xs[i + 1..]
  }

  function SwapAt<T>(xs: seq<T>, i: nat, j: nat): seq<T>
    requires i < |xs| && j < |xs|
  {
    xs[i := xs[j]][j := xs[i]]
  }

  lemma InsertedIsDrawn(list: ArrayDefinition, rows: seq<Row>, i: nat, value: Json, next: nat)
    requires DistinctRows(rows, next) && i <= |rows|
    ensures DrawnFrom(list, rows, InsertAt(rows, i, FreshRow(list, next, value)), next, next + 1)
  {
    var inserted := InsertAt(rows, i, FreshRow(list, next, value));
    forall j | 0 <= j < |inserted| ensures inserted[j] in rows || inserted[j] == FreshRow(list, next, value) {
      assert j < i ==> inserted[j] == rows[j];
      assert j > i ==> inserted[j] == rows[j - 1];
    }
  }

  lemma RemovedIsDrawn(list: ArrayDefinition, rows: seq<Row>, i: nat, next: nat)
    requires DistinctRows(rows, next) && i < |rows|
    ensures DrawnFrom(list, rows, RemoveAt(rows, i), next, next)
  {
  }

  lemma SwappedIsDrawn(list: ArrayDefinition, rows: seq<Row>, i: nat, j: nat, next: nat)
    requires DistinctRows(rows, next) && i < |rows| && j < |rows|
    ensures DrawnFrom(list, rows, SwapAt(rows, i, j), next, next)
  {
  }

  // -------------------------------------------------------------------------- the operations

  /** `array_can_append`. */
  predicate CanAppend(d: Definition, s: State, binding: Pointer) {
    var k := ArrayIndex(d.arrays, binding);
    && k.Some? && IsArrayAt(s.data, binding)
    && (d.arrays[k.value].maxItems.Some? ==> |ValuesAt(s.data, binding)| < d.arrays[k.value].maxItems.value)
  }

  /** `array_can_remove`. */
  predicate CanRemove(d: Definition, s: State, binding: Pointer) {
    var k := ArrayIndex(d.arrays, binding);
    && k.Some? && IsArrayAt(s.data, binding) && ValuesAt(s.data, binding) != []
    && (d.arrays[k.value].minItems.Some? ==> |ValuesAt(s.data, binding)| > d.arrays[k.value].minItems.value)
  }

  datatype Inserted = Inserted(identity: nat, shifted: seq<nat>)

  datatype Removed = Removed(identity: nat, shifted: seq<nat>)

  datatype Moved = Moved(identity: nat, displaced: nat, from: nat, to: nat, dataChanged: bool)

  /** A fresh row at some place. */
  function InsertedRow(d: Definition, s: State, k: nat, i: nat, value: Json): State
    requires Shaped(d, s) && Aligned(d, s) && k < |d.arrays| && i <= |s.arrays[k].items|
  {
    var row := FreshRow(d.arrays[k], s.nextIdentity, value);
    DataChanged(WithRows(d, s, k, InsertAt(Rows(d, s, k), i, row), s.nextIdentity + 1))
  }

  function Append(d: Definition, s: State, binding: Pointer): (State, Result<nat, EditError>)
    requires Shaped(d, s) && Aligned(d, s)
  {
    if !CanAppend(d, s, binding) then (s, Err(OperationNotAllowed))
    else
      var k := ArrayIndex(d.arrays, binding).value;
      (InsertedRow(d, s, k, |s.arrays[k].items|, d.arrays[k].creationSeed), Ok(s.nextIdentity))
  }

  function InsertBefore(d: Definition, s: State, binding: Pointer, before: nat): (State, Result<Inserted, EditError>)
    requires Shaped(d, s) && Aligned(d, s)
  {
    if !CanAppend(d, s, binding) then (s, Err(OperationNotAllowed))
    else
      var k := ArrayIndex(d.arrays, binding).value;
      var i := ItemIndex(s.arrays[k].items, before);
      if i.None? then (s, Err(UnknownControl))
      else
        (InsertedRow(d, s, k, i.value, d.arrays[k].creationSeed),
         Ok(Inserted(s.nextIdentity, Ids(s.arrays[k].items[i.value..]))))
  }

  function Remove(d: Definition, s: State, binding: Pointer, identity: nat): (State, Result<Removed, EditError>)
    requires Shaped(d, s) && Aligned(d, s)
  {
    if !CanRemove(d, s, binding) then (s, Err(OperationNotAllowed))
    else
      var k := ArrayIndex(d.arrays, binding).value;
      var i := ItemIndex(s.arrays[k].items, identity);
      if i.None? then (s, Err(UnknownControl))
      else
        (DataChanged(WithRows(d, s, k, RemoveAt(Rows(d, s, k), i.value), s.nextIdentity)),
         Ok(Removed(identity, Ids(s.arrays[k].items[i.value + 1..]))))
  }

  /** The neighbour an item changes places with. */
  function Destination(i: nat, up: bool, count: nat): Option<nat> {
    if up then if i == 0 then None else Some(i - 1)
    else if i + 1 < count then Some(i + 1) else None
  }

  /** Two rows change places; the data counts as changed unless their values are equal. */
  function Exchanged(d: Definition, s: State, k: nat, i: nat, j: nat): State
    requires Shaped(d, s) && Aligned(d, s) && k < |d.arrays| && i < |s.arrays[k].items| && j < |s.arrays[k].items|
  {
    var values := ValuesAt(s.data, d.arrays[k].binding);
    var swapped := WithRows(d, s, k, SwapAt(Rows(d, s, k), i, j), s.nextIdentity);
    if JsonEqual(values[i], values[j]) then swapped.(stateRevision := s.stateRevision + 1) else DataChanged(swapped)
  }

  function Move(d: Definition, s: State, binding: Pointer, identity: nat, up: bool): (State, Result<Moved, EditError>)
    requires Shaped(d, s) && Aligned(d, s)
  {
    var k := ArrayIndex(d.arrays, binding);
    if k.None? then (s, Err(UnknownControl))
    else
      var items := s.arrays[k.value].items;
      var i := ItemIndex(items, identity);
      if i.None? then (s, Err(UnknownControl))
      else
        var to := Destination(i.value, up, |items|);
        if to.None? then (s, Err(OperationNotAllowed))
        else
          var values := ValuesAt(s.data, binding);
          var changed := !JsonEqual(values[i.value], values[to.value]);
          (Exchanged(d, s, k.value, i.value, to.value),
           Ok(Moved(identity, items[to.value].identity, i.value, to.value, changed)))
  }

  // ------------------------------------------------------------- what the operations keep

  lemma InsertedRowIsSound(d: Definition, s: State, k: nat, i: nat, value: Json)
    requires WellFormedDefinition(d) && Sound(d, s) && k < |d.arrays| && i <= |s.arrays[k].items|
    requires CanHoldArray(d, s, k)
    ensures Sound(d, InsertedRow(d, s, k, i, value))
    ensures Honest(d, s) ==> Honest(d, InsertedRow(d, s, k, i, value))
  {
    var rows := InsertAt(Rows(d, s, k), i, FreshRow(d.arrays[k], s.nextIdentity, value));
    RowsAreDistinct(d, s, k);
    InsertedIsDrawn(d.arrays[k], Rows(d, s, k), i, value, s.nextIdentity);
    DrawnRowsMayReplace(d, s, k, rows, s.nextIdentity + 1);
    RowsChangeIsSound(d, s, k, rows, s.nextIdentity + 1);
  }

  lemma AppendIsSound(d: Definition, s: State, binding: Pointer)
    requires WellFormedDefinition(d) && Sound(d, s)
    ensures Sound(d, Append(d, s, binding).0)
    ensures Honest(d, s) ==> Honest(d, Append(d, s, binding).0)
  {
    if CanAppend(d, s, binding) {
      var k := ArrayIndex(d.arrays, binding).value;
      PresentArraysHold(d, s, k);
      InsertedRowIsSound(d, s, k, |s.arrays[k].items|, d.arrays[k].creationSeed);
    }
  }

  lemma InsertBeforeIsSound(d: Definition, s: State, binding: Pointer, before: nat)
    requires WellFormedDefinition(d) && Sound(d, s)
    ensures Sound(d, InsertBefore(d, s, binding, before).0)
    ensures Honest(d, s) ==> Honest(d, InsertBefore(d, s, binding, before).0)
  {
    if CanAppend(d, s, binding) {
      var k := ArrayIndex(d.arrays, binding).value;
      var i := ItemIndex(s.arrays[k].items, before);
      if i.Some? {
        PresentArraysHold(d, s, k);
        InsertedRowIsSound(d, s, k, i.value, d.arrays[k].creationSeed);
      }
    }
  }

  lemma RemoveIsSound(d: Definition, s: State, binding: Pointer, identity: nat)
    requires WellFormedDefinition(d) && Sound(d, s)
    ensures Sound(d, Remove(d, s, binding, identity).0)
    ensures Honest(d, s) ==> Honest(d, Remove(d, s, binding, identity).0)
  {
    if CanRemove(d, s, binding) {
      var k := ArrayIndex(d.arrays, binding).value;
      var i := ItemIndex(s.arrays[k].items, identity);
      if i.Some? {
        var rows := RemoveAt(Rows(d, s, k), i.value);
        PresentArraysHold(d, s, k);
        RowsAreDistinct(d, s, k);
        RemovedIsDrawn(d.arrays[k], Rows(d, s, k), i.value, s.nextIdentity);
        DrawnRowsMayReplace(d, s, k, rows, s.nextIdentity);
        RowsChangeIsSound(d, s, k, rows, s.nextIdentity);
      }
    }
  }

  lemma ItemsMeanAnArray(d: Definition, s: State, k: nat)
    requires Shaped(d, s) && Aligned(d, s) && k < |d.arrays| && s.arrays[k].items != []
    ensures IsArrayAt(s.data, d.arrays[k].binding)
  {
  }

  lemma MoveIsSound(d: Definition, s: State, binding: Pointer, identity: nat, up: bool)
    requires WellFormedDefinition(d) && Sound(d, s)
    ensures Sound(d, Move(d, s, binding, identity, up).0)
    ensures Honest(d, s) ==> Honest(d, Move(d, s, binding, identity, up).0)
  {
    var r := Move(d, s, binding, identity, up);
    if r.1.Ok? {
      var k := ArrayIndex(d.arrays, binding).value;
      var rows := SwapAt(Rows(d, s, k), r.1.value.from, r.1.value.to);
      ItemsMeanAnArray(d, s, k);
      PresentArraysHold(d, s, k);
      RowsAreDistinct(d, s, k);
      SwappedIsDrawn(d.arrays[k], Rows(d, s, k), r.1.value.from, r.1.value.to, s.nextIdentity);
      DrawnRowsMayReplace(d, s, k, rows, s.nextIdentity);
      RowsChangeIsSound(d, s, k, rows, s.nextIdentity);
      hide WithRows, HonestEdits, Resolve, JsonEqual;
    }
  }

  // ------------------------------------------------------------- what the operations do to rows

  /** The item at this place is not the one that was there. */
  predicate Changed(before: seq<Row>, after: seq<Row>, j: nat)
    requires j < |before|
  {
    j >= |after| || after[j].identity != before[j].identity
  }

  lemma RowsOfWithRows(d: Definition, s: State, k: nat, rows: seq<Row>, next: nat)
    requires WellFormedDefinition(d) && Sound(d, s) && k < |d.arrays| && CanHoldArray(d, s, k)
    requires DrawnFrom(d.arrays[k], Rows(d, s, k), rows, s.nextIdentity, next)
    ensures Shaped(d, WithRows(d, s, k, rows, next)) && Aligned(d, WithRows(d, s, k, rows, next))
    ensures Rows(d, WithRows(d, s, k, rows, next), k) == rows
    ensures forall l | 0 <= l < |d.arrays| && l != k ::
              Rows(d, WithRows(d, s, k, rows, next), l) == Rows(d, s, l)
  {
    DrawnRowsMayReplace(d, s, k, rows, next);
    WithRowsIsAligned(d, s, k, rows, next);
  }

  /** Appending adds one row at the end of one array; every other row stays. */
  lemma AppendAddsARow(d: Definition, s: State, binding: Pointer)
    requires WellFormedDefinition(d) && Sound(d, s) && CanAppend(d, s, binding)
    ensures var k, t := ArrayIndex(d.arrays, binding).value, Append(d, s, binding).0;
            && Shaped(d, t) && Aligned(d, t)
            && Rows(d, t, k) == Rows(d, s, k) + [FreshRow(d.arrays[k], s.nextIdentity, d.arrays[k].creationSeed)]
            && forall l | 0 <= l < |d.arrays| && l != k :: Rows(d, t, l) == Rows(d, s, l)
  {
    var k := ArrayIndex(d.arrays, binding).value;
    var row := FreshRow(d.arrays[k], s.nextIdentity, d.arrays[k].creationSeed);
    PresentArraysHold(d, s, k);
    RowsAreDistinct(d, s, k);
    InsertedIsDrawn(d.arrays[k], Rows(d, s, k), |Rows(d, s, k)|, d.arrays[k].creationSeed, s.nextIdentity);
    assert InsertAt(Rows(d, s, k), |Rows(d, s, k)|, row) == Rows(d, s, k) + [row];
    RowsOfWithRows(d, s, k, Rows(d, s, k) + [row], s.nextIdentity + 1);
  }

  /** Inserting puts a fresh row right before the named one, and reports exactly the items that change place. */
  lemma InsertBeforeInsertsARow(d: Definition, s: State, binding: Pointer, before: nat)
    requires WellFormedDefinition(d) && Sound(d, s) && InsertBefore(d, s, binding, before).1.Ok?
    ensures var k, t := ArrayIndex(d.arrays, binding).value, InsertBefore(d, s, binding, before).0;
            var i := ItemIndex(s.arrays[k].items, before).value;
            && Shaped(d, t) && Aligned(d, t)
            && Rows(d, t, k)
            == InsertAt(Rows(d, s, k), i, FreshRow(d.arrays[k], s.nextIdentity, d.arrays[k].creationSeed))
            && (forall l | 0 <= l < |d.arrays| && l != k :: Rows(d, t, l) == Rows(d, s, l))
            && forall j | 0 <= j < |Rows(d, s, k)| ::
                 Rows(d, s, k)[j].identity in InsertBefore(d, s, binding, before).1.value.shifted
                 <==> Changed(Rows(d, s, k), Rows(d, t, k), j)
  {
    var k := ArrayIndex(d.arrays, binding).value;
    var i := ItemIndex(s.arrays[k].items, before).value;
    var rows, seed := Rows(d, s, k), d.arrays[k].creationSeed;
    PresentArraysHold(d, s, k);
    RowsAreDistinct(d, s, k);
    InsertedIsDrawn(d.arrays[k], rows, i, seed, s.nextIdentity);
    var inserted := InsertAt(rows, i, FreshRow(d.arrays[k], s.nextIdentity, seed));
    RowsOfWithRows(d, s, k, inserted, s.nextIdentity + 1);
    hide WithRows, Sound;
    TailIds(s.arrays[k].items, rows, i);
    InsertingShifts(rows, i, FreshRow(d.arrays[k], s.nextIdentity, seed));
  }

  lemma TailIds(items: seq<Item>, rows: seq<Row>, i: nat)
    requires |items| == |rows| && i <= |rows| && forall j | 0 <= j < |rows| :: items[j].identity == rows[j].identity
    ensures Ids(items[i..]) == RowIds(rows[i..])
  {
  }

  lemma InsertingShifts(rows: seq<Row>, i: nat, row: Row)
    requires i <= |rows| && DistinctRows(rows, row.identity)
    ensures forall j | 0 <= j < |rows| ::
              rows[j].identity in RowIds(rows[i..]) <==> Changed(rows, InsertAt(rows, i, row), j)
  {
    forall j | 0 <= j < |rows|
      ensures rows[j].identity in RowIds(rows[i..]) <==> Changed(rows, InsertAt(rows, i, row), j)
    {
      IdsOfTail(rows, i, j);
      assert j > i ==> InsertAt(rows, i, row)[j] == rows[j - 1];
    }
  }

  lemma IdsOfTail(rows: seq<Row>, i: nat, j: nat)
    requires i <= |rows| && j < |rows|
    requires forall a, b | 0 <= a < b < |rows| :: rows[a].identity != rows[b].identity
    ensures rows[j].identity in RowIds(rows[i..]) <==> i <= j
  {
    if i <= j {
      assert RowIds(rows[i..])[j - i] == rows[j].identity;
    }
  }

  /** Removing drops one row, and reports exactly the other items that change place. */
  lemma RemoveRemovesARow(d: Definition, s: State, binding: Pointer, identity: nat)
    requires WellFormedDefinition(d) && Sound(d, s) && Remove(d, s, binding, identity).1.Ok?
    ensures var k, t := ArrayIndex(d.arrays, binding).value, Remove(d, s, binding, identity).0;
            var i := ItemIndex(s.arrays[k].items, identity).value;
            && Shaped(d, t) && Aligned(d, t) && Rows(d, t, k) == RemoveAt(Rows(d, s, k), i)
            && (forall l | 0 <= l < |d.arrays| && l != k :: Rows(d, t, l) == Rows(d, s, l))
            && forall j | 0 <= j < |Rows(d, s, k)| && Rows(d, s, k)[j].identity != identity ::
                 Rows(d, s, k)[j].identity in Remove(d, s, binding, identity).1.value.shifted
                 <==> Changed(Rows(d, s, k), Rows(d, t, k), j)
  {
    var k := ArrayIndex(d.arrays, binding).value;
    var i := ItemIndex(s.arrays[k].items, identity).value;
    var rows := Rows(d, s, k);
    PresentArraysHold(d, s, k);
    RowsAreDistinct(d, s, k);
    RemovedIsDrawn(d.arrays[k], rows, i, s.nextIdentity);
    RowsOfWithRows(d, s, k, RemoveAt(rows, i), s.nextIdentity);
    hide WithRows, Sound;
    TailIds(s.arrays[k].items, rows, i + 1);
    RemovingShifts(rows, i);
  }

  lemma RemovingShifts(rows: seq<Row>, i: nat)
    requires i < |rows| && forall a, b | 0 <= a < b < |rows| :: rows[a].identity != rows[b].identity
    ensures forall j | 0 <= j < |rows| && j != i ::
              rows[j].identity in RowIds(rows[i + 1..]) <==> Changed(rows, RemoveAt(rows, i), j)
  {
    forall j | 0 <= j < |rows| && j != i
      ensures rows[j].identity in RowIds(rows[i + 1..]) <==> Changed(rows, RemoveAt(rows, i), j)
    {
      IdsOfTail(rows, i + 1, j);
    }
  }

  lemma ExchangedSwapsRows(d: Definition, s: State, k: nat, i: nat, j: nat)
    requires WellFormedDefinition(d) && Sound(d, s) && k < |d.arrays|
    requires i < |s.arrays[k].items| && j < |s.arrays[k].items|
    ensures Shaped(d, Exchanged(d, s, k, i, j)) && Aligned(d, Exchanged(d, s, k, i, j))
    ensures Rows(d, Exchanged(d, s, k, i, j), k) == SwapAt(Rows(d, s, k), i, j)
    ensures forall l | 0 <= l < |d.arrays| && l != k :: Rows(d, Exchanged(d, s, k, i, j), l) == Rows(d, s, l)
  {
    ItemsMeanAnArray(d, s, k);
    PresentArraysHold(d, s, k);
    RowsAreDistinct(d, s, k);
    SwappedIsDrawn(d.arrays[k], Rows(d, s, k), i, j, s.nextIdentity);
    hide WithRows, JsonEqual, SwapAt, DrawnFrom, DistinctRows, WellFormedDefinition, CanHoldArray;
    RowsOfWithRows(d, s, k, SwapAt(Rows(d, s, k), i, j), s.nextIdentity);
  }

  lemma SwappingMoves(rows: seq<Row>, i: nat, j: nat, next: nat)
    requires DistinctRows(rows, next) && i < |rows| && j < |rows| && i != j
    ensures forall x | 0 <= x < |rows| && rows[x].identity != rows[i].identity ::
              rows[x].identity == rows[j].identity <==> Changed(rows, SwapAt(rows, i, j), x)
  {
  }

  /** Moving exchanges two neighbouring rows; the displaced item is the only other one that changes place. */
  lemma MoveSwapsRows(d: Definition, s: State, binding: Pointer, identity: nat, up: bool)
    requires WellFormedDefinition(d) && Sound(d, s) && Move(d, s, binding, identity, up).1.Ok?
    ensures var k, t, moved := ArrayIndex(d.arrays, binding).value, Move(d, s, binding, identity, up).0,
              Move(d, s, binding, identity, up).1.value;
            && Shaped(d, t) && Aligned(d, t)
            && s.arrays[k].items[moved.from].identity == identity
            && moved.to == (if up then moved.from - 1 else moved.from + 1)
            && Rows(d, t, k) == SwapAt(Rows(d, s, k), moved.from, moved.to)
            && (forall l | 0 <= l < |d.arrays| && l != k :: Rows(d, t, l) == Rows(d, s, l))
            && forall j | 0 <= j < |Rows(d, s, k)| && Rows(d, s, k)[j].identity != identity ::
                 Rows(d, s, k)[j].identity == moved.displaced <==> Changed(Rows(d, s, k), Rows(d, t, k), j)
  {
    var k, moved := ArrayIndex(d.arrays, binding).value, Move(d, s, binding, identity, up).1.value;
    RowsAreDistinct(d, s, k);
    hide DistinctRows, JsonEqual, Exchanged, SwapAt, Changed, Identified;
    ExchangedSwapsRows(d, s, k, moved.from, moved.to);
    SwappingMoves(Rows(d, s, k), moved.from, moved.to, s.nextIdentity);
  }

  /** A move that reports unchanged data leaves semantically equal data. */
  lemma QuietMovesKeepTheData(d: Definition, s: State, binding: Pointer, identity: nat, up: bool)
    requires Sound(d, s)
    ensures var r := Move(d, s, binding, identity, up);
            r.0.dataRevision == s.dataRevision ==> JsonEqual(s.data, r.0.data)
  {
    var r := Move(d, s, binding, identity, up);
    if r.1.Ok? && !r.1.value.dataChanged {
      var k, i, j := ArrayIndex(d.arrays, binding).value, r.1.value.from, r.1.value.to;
      var values := ValuesAt(s.data, binding);
      ItemsMeanAnArray(d, s, k);
      EqualIsSymmetric(values[i], values[j]);
      var swapped := Array(RowValues(SwapAt(Rows(d, s, k), i, j)));
      assert JsonEqual(Array(values), swapped) by {
        forall m | 0 <= m < |values| ensures JsonEqual(values[m], swapped.items[m]) {
        }
      }
      SetBoundKeepsEqual(s.data, binding, swapped);
    }
  }
}
