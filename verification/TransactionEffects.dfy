/** Exactly which buffers a transaction of the host clears, and what follows: when it is honest, and when it fails
without a trace. */
module TransactionEffects {
  import opened Bytes
  import opened Json
  import opened FormModel
  import opened ArrayOperations
  import opened ControlEdits
  import opened Structures
  import opened Lifecycle
  import opened HostTransactions

  // ---------------------------------------------------------------- what item writes clear

  /** The item writes are made in turn up to the first that names no live item. */
  predicate IsMade(arrays: seq<ArrayState>, writes: seq<ItemWrite>, w: nat)
    requires w < |writes|
  {
    forall v | 0 <= v <= w :: NamesLiveItem(arrays, writes[v])
  }

  predicate HitsItem(arrays: seq<ArrayState>, write: ItemWrite, k: nat, i: nat, binding: Pointer)
    requires k < |arrays|
  {
    write.list == k && ItemIndex(arrays[k].items, write.identity) == Some(i) && !Apart(write.binding, binding)
  }

  /** Some write that is made hits the control of the item. */
  predicate Reaches(arrays: seq<ArrayState>, writes: seq<ItemWrite>, k: nat, i: nat, binding: Pointer)
    requires k < |arrays|
  {
    exists w | 0 <= w < |writes| :: IsMade(arrays, writes, w) && HitsItem(arrays, writes[w], k, i, binding)
  }

  /** The same items in the same places, with edit states for as many controls. */
  predicate SameItems(arrays: seq<ArrayState>, others: seq<ArrayState>) {
    && |arrays| == |others|
    && forall k | 0 <= k < |arrays| ::
         && |arrays[k].items| == |others[k].items| && arrays[k].touched == others[k].touched
         && forall i | 0 <= i < |arrays[k].items| ::
              && arrays[k].items[i].identity == others[k].items[i].identity
              && |arrays[k].items[i].edits| == |others[k].items[i].edits|
  }

  lemma ClearedAreSameItems(arrays: seq<ArrayState>, cleared: seq<ArrayState>)
    requires OnlyCleared(arrays, cleared)
    ensures SameItems(arrays, cleared)
  {
    forall k, i | 0 <= k < |arrays| && 0 <= i < |arrays[k].items|
      ensures arrays[k].items[i].identity == cleared[k].items[i].identity
      ensures |arrays[k].items[i].edits| == |cleared[k].items[i].edits|
    {
      assert OnlyClearedItem(arrays[k].items[i], cleared[k].items[i]);
    }
  }

  lemma {:induction false} SameItemsSameIndex(items: seq<Item>, others: seq<Item>, identity: nat)
    requires |items| == |others| && forall i | 0 <= i < |items| :: items[i].identity == others[i].identity
    ensures ItemIndex(items, identity) == ItemIndex(others, identity)
  {
    if items != [] {
      SameItemsSameIndex(items[1..], others[1..], identity);
    }
  }

  /** One write that names a live item clears exactly the controls of that item that it hits. */
  lemma OneWriteClears(lists: seq<ArrayDefinition>, arrays: seq<ArrayState>, write: ItemWrite, k: nat, i: nat, c: nat)
    requires |lists| == |arrays| && AllShaped(lists, arrays) && ClearedItem(lists, arrays, write).Some?
    requires k < |arrays| && i < |arrays[k].items| && c < |lists[k].controls|
    ensures |arrays[k].items[i].edits| == |lists[k].controls|
    ensures var cleared := ClearedItem(lists, arrays, write).value;
            && i < |cleared[k].items| && |cleared[k].items[i].edits| == |lists[k].controls|
            && cleared[k].items[i].edits[c]
            == if HitsItem(arrays, write, k, i, lists[k].controls[c].binding) then Cleared(arrays[k].items[i].edits[c])
               else arrays[k].items[i].edits[c]
  {
    assert ItemsShaped(arrays[k].items, |lists[k].controls|);
    assert ItemsShaped(arrays[write.list].items, |lists[write.list].controls|);
    HittingIsTouching([write.binding], lists[k].controls[c].binding);
    assert Touches([write.binding], lists[k].controls[c].binding) <==> !Apart(write.binding, lists[k].controls[c].binding) by {
      assert [write.binding][0] == write.binding;
    }
  }

  lemma MadeInFront(arrays: seq<ArrayState>, front: seq<ItemWrite>, last: ItemWrite)
    ensures forall w | 0 <= w < |front| :: IsMade(arrays, front + [last], w) <==> IsMade(arrays, front, w)
    ensures IsMade(arrays, front + [last], |front|)
       <==> (forall v | 0 <= v < |front| :: NamesLiveItem(arrays, front[v])) && NamesLiveItem(arrays, last)
  {
    hide NamesLiveItem;
    var writes := front + [last];
    assert forall v | 0 <= v < |front| :: writes[v] == front[v];
    assert writes[|front|] == last;
  }

  /** Whether the last write adds to what the others reach. */
  lemma ReachesOneMore(arrays: seq<ArrayState>, front: seq<ItemWrite>, last: ItemWrite, k: nat, i: nat, binding: Pointer)
    requires k < |arrays|
    ensures Reaches(arrays, front + [last], k, i, binding)
       <==> || Reaches(arrays, front, k, i, binding)
            || ((forall v | 0 <= v < |front| :: NamesLiveItem(arrays, front[v])) && NamesLiveItem(arrays, last)
                && HitsItem(arrays, last, k, i, binding))
  {
    MadeInFront(arrays, front, last);
    hide NamesLiveItem, HitsItem, IsMade;
    var writes := front + [last];
    assert forall v | 0 <= v < |front| :: writes[v] == front[v];
    assert writes[|front|] == last;
    if Reaches(arrays, front, k, i, binding) {
      var w :| 0 <= w < |front| && IsMade(arrays, front, w) && HitsItem(arrays, front[w], k, i, binding);
      assert IsMade(arrays, writes, w) && HitsItem(arrays, writes[w], k, i, binding);
    }
    if IsMade(arrays, writes, |front|) && HitsItem(arrays, last, k, i, binding) {
      assert HitsItem(arrays, writes[|front|], k, i, binding);
    }
  }

  lemma LiveIsFound(lists: seq<ArrayDefinition>, arrays: seq<ArrayState>, before: seq<ArrayState>, write: ItemWrite)
    requires |lists| == |before| && AllShaped(lists, before) && SameItems(arrays, before)
    ensures NamesLiveItem(arrays, write) <==> ClearedItem(lists, before, write).Some?
    ensures forall k: nat, i: nat, binding | k < |arrays| ::
              HitsItem(before, write, k, i, binding) <==> HitsItem(arrays, write, k, i, binding)
  {
    hide AllShaped;
    if write.list < |arrays| {
      SameItemsSameIndex(arrays[write.list].items, before[write.list].items, write.identity);
    }
  }

  /** The item writes clear exactly what they reach; clearing is never undone. */
  lemma {:induction false} ItemWritesClear(lists: seq<ArrayDefinition>, arrays: seq<ArrayState>, writes: seq<ItemWrite>,
                                           k: nat, i: nat, c: nat)
    requires |lists| == |arrays| && AllShaped(lists, arrays)
    requires k < |arrays| && i < |arrays[k].items| && c < |lists[k].controls|
    ensures |arrays[k].items[i].edits| == |lists[k].controls|
    ensures var cleared := ClearedByItemWrites(lists, arrays, writes).0;
            && i < |cleared[k].items| && |cleared[k].items[i].edits| == |lists[k].controls|
            && cleared[k].items[i].edits[c]
            == if Reaches(arrays, writes, k, i, lists[k].controls[c].binding) then Cleared(arrays[k].items[i].edits[c])
               else arrays[k].items[i].edits[c]
    decreases |writes|
  {
    assert ItemsShaped(arrays[k].items, |lists[k].controls|);
    if writes == [] {
    } else {
      var front, last := writes[..|writes| - 1], writes[|writes| - 1];
      var before := ClearedByItemWrites(lists, arrays, front).0;
      assert writes == front + [last];
      ItemWritesClear(lists, arrays, front, k, i, c);
      ItemWritesOnlyClear(lists, arrays, front);
      ClearedAreSameItems(arrays, before);
      WritesAreLive(lists, arrays, front);
      LiveIsFound(lists, arrays, before, last);
      ReachesOneMore(arrays, front, last, k, i, lists[k].controls[c].binding);
      hide ClearedItem, HitsItem, NamesLiveItem, Reaches, OnlyCleared, SameItems, AllShaped;
      if ClearedItem(lists, before, last).Some? {
        OneWriteClears(lists, before, last, k, i, c);
      }
    }
  }

  // ------------------------------------------------------------------ failing without a trace

  predicate NoInput(edit: EditState) {
    edit.buffer.None? && edit.blocker.None?
  }

  /** The controls that the writes hit hold neither a buffer nor a blocker. */
  predicate FindsNoInput(controls: seq<ControlDefinition>, edits: seq<EditState>, writes: seq<Pointer>)
    requires |edits| == |controls|
  {
    forall c | 0 <= c < |controls| && Touches(writes, controls[c].binding) :: NoInput(edits[c])
  }

  predicate ItemWriteFindsNoInput(lists: seq<ArrayDefinition>, arrays: seq<ArrayState>, write: ItemWrite)
    requires |lists| == |arrays| && AllShaped(lists, arrays) && NamesLiveItem(arrays, write)
  {
    var items := arrays[write.list].items;
    assert ItemsShaped(items, |lists[write.list].controls|);
    FindsNoInput(lists[write.list].controls, items[ItemIndex(items, write.identity).value].edits, [write.binding])
  }

  predicate ItemWritesFindNoInput(lists: seq<ArrayDefinition>, arrays: seq<ArrayState>, writes: seq<ItemWrite>)
    requires |lists| == |arrays| && AllShaped(lists, arrays)
  {
    forall w | 0 <= w < |writes| && IsMade(arrays, writes, w) :: ItemWriteFindsNoInput(lists, arrays, writes[w])
  }

  /** The writes, and the item writes up to the first dead one, meet only controls without buffer and blocker. */
  predicate WritesFindNoInput(d: Definition, s: State, writes: seq<Pointer>, itemWrites: seq<ItemWrite>)
    requires Shaped(d, s)
  {
    assert AllShaped(d.arrays, s.arrays);
    FindsNoInput(d.controls, s.edits, writes) && ItemWritesFindNoInput(d.arrays, s.arrays, itemWrites)
  }

  lemma ClearingNothing(controls: seq<ControlDefinition>, edits: seq<EditState>, writes: seq<Pointer>)
    requires |edits| == |controls|
    ensures ClearedByWrites(controls, edits, writes) == edits <==> FindsNoInput(controls, edits, writes)
  {
    hide Hits, Touches;
    var cleared := ClearedByWrites(controls, edits, writes);
    forall c | 0 <= c < |controls|
      ensures cleared[c] == edits[c] <==> (Touches(writes, controls[c].binding) ==> NoInput(edits[c]))
    {
      HittingIsTouching(writes, controls[c].binding);
    }
  }

  ghost predicate ReachedHoldNoInput(lists: seq<ArrayDefinition>, arrays: seq<ArrayState>, writes: seq<ItemWrite>)
    requires |lists| == |arrays| && AllShaped(lists, arrays)
  {
    forall k, i, c | 0 <= k < |arrays| && 0 <= i < |arrays[k].items| && 0 <= c < |lists[k].controls| ::
      HoldsNoInputIfReached(lists, arrays, writes, k, i, c)
  }

  ghost predicate HoldsNoInputIfReached(lists: seq<ArrayDefinition>, arrays: seq<ArrayState>, writes: seq<ItemWrite>,
                                        k: nat, i: nat, c: nat)
    requires |lists| == |arrays| && AllShaped(lists, arrays)
    requires k < |arrays| && i < |arrays[k].items| && c < |lists[k].controls|
  {
    assert ItemsShaped(arrays[k].items, |lists[k].controls|);
    Reaches(arrays, writes, k, i, lists[k].controls[c].binding) ==> NoInput(arrays[k].items[i].edits[c])
  }

  lemma OnlyOneTouches(write: Pointer, binding: Pointer)
    ensures Touches([write], binding) <==> !Apart(write, binding)
  {
    assert [write][0] == write;
  }

  lemma ReachedIsFound(lists: seq<ArrayDefinition>, arrays: seq<ArrayState>, writes: seq<ItemWrite>)
    requires |lists| == |arrays| && AllShaped(lists, arrays)
    ensures ItemWritesFindNoInput(lists, arrays, writes) <==> ReachedHoldNoInput(lists, arrays, writes)
  {
    if ItemWritesFindNoInput(lists, arrays, writes) {
      forall k, i, c | 0 <= k < |arrays| && 0 <= i < |arrays[k].items| && 0 <= c < |lists[k].controls|
        ensures HoldsNoInputIfReached(lists, arrays, writes, k, i, c)
      {
        if Reaches(arrays, writes, k, i, lists[k].controls[c].binding) {
          var w :| 0 <= w < |writes| && IsMade(arrays, writes, w)
                   && HitsItem(arrays, writes[w], k, i, lists[k].controls[c].binding);
          assert ItemWriteFindsNoInput(lists, arrays, writes[w]);
          OnlyOneTouches(writes[w].binding, lists[k].controls[c].binding);
        }
      }
    }
    if ReachedHoldNoInput(lists, arrays, writes) {
      forall w | 0 <= w < |writes| && IsMade(arrays, writes, w) ensures ItemWriteFindsNoInput(lists, arrays, writes[w]) {
        ReachedWriteFindsNothing(lists, arrays, writes, w);
      }
    }
  }

  lemma ReachedWriteFindsNothing(lists: seq<ArrayDefinition>, arrays: seq<ArrayState>, writes: seq<ItemWrite>, w: nat)
    requires |lists| == |arrays| && AllShaped(lists, arrays) && ReachedHoldNoInput(lists, arrays, writes)
    requires w < |writes| && IsMade(arrays, writes, w)
    ensures NamesLiveItem(arrays, writes[w]) && ItemWriteFindsNoInput(lists, arrays, writes[w])
  {
    var k := writes[w].list;
    assert NamesLiveItem(arrays, writes[w]);
    var i := ItemIndex(arrays[k].items, writes[w].identity).value;
    hide IsMade;
    forall c | 0 <= c < |lists[k].controls| && Touches([writes[w].binding], lists[k].controls[c].binding)
      ensures NoInput(arrays[k].items[i].edits[c])
    {
      OnlyOneTouches(writes[w].binding, lists[k].controls[c].binding);
      assert HitsItem(arrays, writes[w], k, i, lists[k].controls[c].binding);
      assert HoldsNoInputIfReached(lists, arrays, writes, k, i, c);
    }
  }

  lemma ClearingNoItem(lists: seq<ArrayDefinition>, arrays: seq<ArrayState>, writes: seq<ItemWrite>)
    requires |lists| == |arrays| && AllShaped(lists, arrays)
    ensures ClearedByItemWrites(lists, arrays, writes).0 == arrays <==> ItemWritesFindNoInput(lists, arrays, writes)
  {
    var cleared := ClearedByItemWrites(lists, arrays, writes).0;
    ReachedIsFound(lists, arrays, writes);
    hide ItemWritesFindNoInput, ClearedByItemWrites, Reaches;
    forall k, i, c | 0 <= k < |arrays| && 0 <= i < |arrays[k].items| && 0 <= c < |lists[k].controls|
      ensures i < |cleared[k].items| && c < |arrays[k].items[i].edits| && c < |cleared[k].items[i].edits|
      ensures HoldsNoInputIfReached(lists, arrays, writes, k, i, c)
         <==> cleared[k].items[i].edits[c] == arrays[k].items[i].edits[c]
    {
      ItemWritesClear(lists, arrays, writes, k, i, c);
    }
    hide HoldsNoInputIfReached;
    ItemWritesOnlyClear(lists, arrays, writes);
    ClearedAreSameItems(arrays, cleared);
    hide OnlyCleared;
    if ReachedHoldNoInput(lists, arrays, writes) {
      SameEditsSameArrays(lists, arrays, cleared);
    }
  }

  lemma SameEditsSameArrays(lists: seq<ArrayDefinition>, arrays: seq<ArrayState>, others: seq<ArrayState>)
    requires |lists| == |arrays| && AllShaped(lists, arrays) && SameItems(arrays, others)
    requires forall k, i, c | 0 <= k < |arrays| && 0 <= i < |arrays[k].items| && 0 <= c < |lists[k].controls| ::
               && c < |arrays[k].items[i].edits|
               && others[k].items[i].edits[c] == arrays[k].items[i].edits[c]
    ensures others == arrays
  {
    forall k | 0 <= k < |arrays| ensures others[k] == arrays[k] {
      assert ItemsShaped(arrays[k].items, |lists[k].controls|);
      forall i | 0 <= i < |arrays[k].items| ensures others[k].items[i] == arrays[k].items[i] {
        assert others[k].items[i].edits == arrays[k].items[i].edits;
      }
      assert others[k].items == arrays[k].items;
    }
  }

  /** A transaction that fails never does more than clear buffers. It leaves no trace at all if and only if it is
  malformed, so that nothing is touched, or its writes up to the first dead one find nothing to clear. */
  lemma FailedTransactionsOnlyClear(d: Definition, s: State, data: Json, writes: seq<Pointer>, changes: seq<HostChange>,
                                    itemWrites: seq<ItemWrite>)
    requires Shaped(d, s) && HostTransaction(d, s, data, writes, changes, itemWrites).1.Err?
    ensures HostTransaction(d, s, data, writes, changes, itemWrites).0 == s
       <==> !WellFormedTransaction(d, s, data, changes) || WritesFindNoInput(d, s, writes, itemWrites)
    ensures var t := HostTransaction(d, s, data, writes, changes, itemWrites).0;
            && t == s.(edits := t.edits, arrays := t.arrays) && OnlyCleared(s.arrays, t.arrays)
            && |t.edits| == |s.edits|
            && forall c | 0 <= c < |s.edits| :: t.edits[c] == s.edits[c] || t.edits[c] == Cleared(s.edits[c])
  {
    assert AllShaped(d.arrays, s.arrays);
    ItemWritesOnlyClear(d.arrays, s.arrays, itemWrites);
    NothingCleared(s.arrays);
    ClearingNothing(d.controls, s.edits, writes);
    ClearingNoItem(d.arrays, s.arrays, itemWrites);
    hide ClearedByItemWrites, WellFormedTransaction, Planned, JsonEqual, OnlyCleared, FindsNoInput, ItemWritesFindNoInput;
  }

  lemma NothingCleared(arrays: seq<ArrayState>)
    ensures OnlyCleared(arrays, arrays)
  {
  }

  // --------------------------------------------------------------------- covering what changes

  /** A buffer without a blocker: it shows what the data is taken to hold. */
  predicate ShowsData(edit: EditState) {
    edit.buffer.Some? && edit.blocker.None?
  }

  predicate ItemIsHit(writes: seq<ItemWrite>, k: nat, identity: nat, binding: Pointer) {
    exists w | 0 <= w < |writes| ::
      writes[w].list == k && writes[w].identity == identity && !Apart(writes[w].binding, binding)
  }

  /** The data that the form will hold: equal data is not replaced. */
  function DataToHold(s: State, data: Json): Json {
    if JsonEqual(s.data, data) then s.data else data
  }

  /** Every control on its own that shows data is hit by a write, or keeps an equal value. */
  predicate ControlsCovered(controls: seq<ControlDefinition>, edits: seq<EditState>, before: Json, after: Json,
                            writes: seq<Pointer>)
    requires |edits| == |controls|
  {
    forall c | 0 <= c < |controls| && ShowsData(edits[c]) ::
      || Touches(writes, controls[c].binding)
      || OptionallyEqual(Resolve(before, controls[c].binding), Resolve(after, controls[c].binding))
  }

  /** Every control of the item that shows data is hit by an item write, or keeps an equal value. */
  predicate ItemCovered(list: ArrayDefinition, k: nat, item: Item, before: Json, after: Json, writes: seq<ItemWrite>)
    requires |item.edits| == |list.controls|
  {
    forall c | 0 <= c < |list.controls| && ShowsData(item.edits[c]) ::
      || ItemIsHit(writes, k, item.identity, list.controls[c].binding)
      || OptionallyEqual(Resolve(before, list.controls[c].binding), Resolve(after, list.controls[c].binding))
  }

  lemma CountsOfNewData(d: Definition, s: State, data: Json, changes: seq<HostChange>)
    requires Shaped(d, s) && Aligned(d, s) && WellFormedTransaction(d, s, data, changes)
    ensures |changes| == |d.arrays|
    ensures forall k | 0 <= k < |d.arrays| && changes[k].Preserve? ::
              |ValuesAt(DataToHold(s, data), d.arrays[k].binding)| == |changes[k].topology|
  {
    hide JsonEqual, ValuesAt;
    forall k | 0 <= k < |d.arrays| && changes[k].Preserve?
      ensures |ValuesAt(DataToHold(s, data), d.arrays[k].binding)| == |changes[k].topology|
    {
      assert FitsArray(d.arrays[k], s.arrays[k].items, changes[k], data);
      if JsonEqual(s.data, data) {
        EqualDataHasEqualCounts(s.data, data, d.arrays[k].binding);
      }
    }
  }

  /** Every item that the topology keeps is covered over its new value, wherever it is put. */
  ghost predicate ItemsCovered(d: Definition, s: State, data: Json, changes: seq<HostChange>, itemWrites: seq<ItemWrite>)
    requires Shaped(d, s) && Aligned(d, s) && WellFormedTransaction(d, s, data, changes)
  {
    CountsOfNewData(d, s, data, changes);
    forall k, i, j | 0 <= k < |d.arrays| && changes[k].Preserve? && 0 <= i < |changes[k].topology|
                     && 0 <= j < |s.arrays[k].items|
                     && changes[k].topology[i] == Existing(s.arrays[k].items[j].identity) ::
      ItemCovered(d.arrays[k], k, s.arrays[k].items[j], ValuesAt(s.data, d.arrays[k].binding)[j],
                  ValuesAt(DataToHold(s, data), d.arrays[k].binding)[i], itemWrites)
  }

  /** The writes and item writes hit every control that shows data which the transaction changes. */
  ghost predicate WritesCover(d: Definition, s: State, data: Json, writes: seq<Pointer>, changes: seq<HostChange>,
                              itemWrites: seq<ItemWrite>)
    requires Shaped(d, s) && Aligned(d, s) && WellFormedTransaction(d, s, data, changes)
  {
    && ControlsCovered(d.controls, s.edits, s.data, DataToHold(s, data), writes)
    && ItemsCovered(d, s, data, changes, itemWrites)
  }

  lemma CoveredControlsStand(controls: seq<ControlDefinition>, edits: seq<EditState>, before: Json, after: Json,
                             writes: seq<Pointer>)
    requires |edits| == |controls|
    ensures EditsStand(controls, ClearedByWrites(controls, edits, writes), before, after)
       <==> ControlsCovered(controls, edits, before, after, writes)
  {
    hide Hits, Touches, OptionallyEqual, Resolve;
    var cleared := ClearedByWrites(controls, edits, writes);
    forall c | 0 <= c < |controls|
      ensures StillStands(cleared[c], Resolve(before, controls[c].binding), Resolve(after, controls[c].binding))
         <==> (ShowsData(edits[c]) ==>
                 || Touches(writes, controls[c].binding)
                 || OptionallyEqual(Resolve(before, controls[c].binding), Resolve(after, controls[c].binding)))
    {
      HittingIsTouching(writes, controls[c].binding);
    }
  }

  /** Once all item writes are made, an item is reached by those that name it. */
  lemma ReachedIsHit(arrays: seq<ArrayState>, writes: seq<ItemWrite>, k: nat, j: nat, next: nat, binding: Pointer)
    requires k < |arrays| && j < |arrays[k].items| && DistinctItems(arrays[k].items, next)
    requires forall w | 0 <= w < |writes| :: NamesLiveItem(arrays, writes[w])
    ensures Reaches(arrays, writes, k, j, binding) <==> ItemIsHit(writes, k, arrays[k].items[j].identity, binding)
  {
    forall w | 0 <= w < |writes|
      ensures IsMade(arrays, writes, w) && HitsItem(arrays, writes[w], k, j, binding)
         <==> writes[w].list == k && writes[w].identity == arrays[k].items[j].identity
              && !Apart(writes[w].binding, binding)
    {
      IndexOfItem(arrays[k].items, j, writes[w].identity, next);
    }
    hide HitsItem, IsMade, Apart;
  }

  lemma IndexOfItem(items: seq<Item>, j: nat, identity: nat, next: nat)
    requires j < |items| && DistinctItems(items, next)
    ensures ItemIndex(items, identity) == Some(j) <==> items[j].identity == identity
  {
  }

  /** What the item writes leave of one control's input stands exactly when the control is covered. */
  lemma CoveredControlStands(d: Definition, s: State, itemWrites: seq<ItemWrite>, k: nat, j: nat, c: nat, before: Option<Json>,
                             after: Option<Json>)
    requires Sound(d, s) && k < |d.arrays| && j < |s.arrays[k].items| && c < |d.arrays[k].controls|
    requires AllShaped(d.arrays, s.arrays) && forall w | 0 <= w < |itemWrites| :: NamesLiveItem(s.arrays, itemWrites[w])
    ensures var item, cleared := s.arrays[k].items[j], ClearedByItemWrites(d.arrays, s.arrays, itemWrites).0;
            && j < |cleared[k].items| && |cleared[k].items[j].edits| == |d.arrays[k].controls| == |item.edits|
            && (StillStands(cleared[k].items[j].edits[c], before, after)
                <==> (ShowsData(item.edits[c]) ==>
                        || ItemIsHit(itemWrites, k, item.identity, d.arrays[k].controls[c].binding)
                        || OptionallyEqual(before, after)))
  {
    SoundItemsAreDistinct(d, s, k);
    hide ClearedByItemWrites, Sound, NamesLiveItem, AllShaped, Reaches, ItemIsHit, OptionallyEqual, DistinctItems;
    ItemWritesClear(d.arrays, s.arrays, itemWrites, k, j, c);
    ReachedIsHit(s.arrays, itemWrites, k, j, s.nextIdentity, d.arrays[k].controls[c].binding);
  }

  /** The controls of an item that is kept still stand exactly when it is covered. */
  lemma CoveredItemStands(d: Definition, s: State, itemWrites: seq<ItemWrite>, k: nat, j: nat, before: Json, after: Json)
    requires Sound(d, s) && k < |d.arrays| && j < |s.arrays[k].items| && AllShaped(d.arrays, s.arrays)
    requires forall w | 0 <= w < |itemWrites| :: NamesLiveItem(s.arrays, itemWrites[w])
    ensures var cleared := ClearedByItemWrites(d.arrays, s.arrays, itemWrites).0;
            && j < |cleared[k].items| && |cleared[k].items[j].edits| == |d.arrays[k].controls|
            && (EditsStand(d.arrays[k].controls, cleared[k].items[j].edits, before, after)
                <==> ItemCovered(d.arrays[k], k, s.arrays[k].items[j], before, after, itemWrites))
  {
    var cleared := ClearedByItemWrites(d.arrays, s.arrays, itemWrites).0;
    var list, item := d.arrays[k], s.arrays[k].items[j];
    ItemWritesOnlyClear(d.arrays, s.arrays, itemWrites);
    ClearedAreSameItems(s.arrays, cleared);
    assert |item.edits| == |list.controls|;
    hide ClearedByItemWrites, Sound, OnlyCleared, NamesLiveItem, AllShaped, ItemIsHit, Resolve, OptionallyEqual, StillStands,
         ShowsData;
    forall c | 0 <= c < |list.controls|
      ensures StillStands(cleared[k].items[j].edits[c], Resolve(before, list.controls[c].binding),
                          Resolve(after, list.controls[c].binding))
         <==> (ShowsData(item.edits[c]) ==>
                 || ItemIsHit(itemWrites, k, item.identity, list.controls[c].binding)
                 || OptionallyEqual(Resolve(before, list.controls[c].binding), Resolve(after, list.controls[c].binding)))
    {
      CoveredControlStands(d, s, itemWrites, k, j, c, Resolve(before, list.controls[c].binding),
                           Resolve(after, list.controls[c].binding));
    }
  }

  /** The topology puts the very item it names, with what the item writes left of its edit states. */
  lemma PlacedItem(list: ArrayDefinition, former: seq<Item>, cleared: seq<Item>, topology: seq<HostItem>, data: Json,
                   next: nat, n: nat, i: nat, j: nat)
    requires |cleared| == |former| && forall m | 0 <= m < |former| :: cleared[m].identity == former[m].identity
    requires DistinctItems(former, next) && NamesLiveItems(former, topology)
    requires i < |topology| && j < |former| && topology[i] == Existing(former[j].identity)
    ensures var placed := PlannedItems(list, cleared, PlanOf(former, Preserve(topology)), data, n).0;
            i < |placed| && placed[i] == cleared[j]
  {
    hide Arranged, NamesLiveItems, DistinctItems;
    SameItem(former, next, j);
    if topology != AsIs(former) {
      ArrangedItem(list, former, cleared, topology, n, i, j);
    }
  }

  lemma SameItem(items: seq<Item>, next: nat, j: nat)
    requires DistinctItems(items, next) && j < |items|
    ensures forall m | 0 <= m < |items| && items[m].identity == items[j].identity :: m == j
  {
  }

  lemma ArrangedItem(list: ArrayDefinition, former: seq<Item>, cleared: seq<Item>, topology: seq<HostItem>, n: nat, i: nat,
                     j: nat)
    requires |cleared| == |former| && forall m | 0 <= m < |former| :: cleared[m].identity == former[m].identity
    requires NamesLiveItems(former, topology) && i < |topology| && j < |former|
    requires topology[i] == Existing(former[j].identity)
    requires forall m | 0 <= m < |former| && former[m].identity == former[j].identity :: m == j
    ensures i < |Arranged(list, cleared, topology, n).0| && Arranged(list, cleared, topology, n).0[i] == cleared[j]
  {
    LiveItemsAreNameable(former, topology);
    assert Ids(former) == Ids(cleared);
    ArrangedFollows(list, cleared, topology, n);
    hide Arranged, NamesLiveItems;
    var placed := Arranged(list, cleared, topology, n).0[i];
    var m :| 0 <= m < |cleared| && cleared[m] == placed;
  }

  lemma KeptItemIsPlaced(d: Definition, s: State, data: Json, writes: seq<Pointer>, changes: seq<HostChange>,
                         itemWrites: seq<ItemWrite>, k: nat, i: nat, j: nat)
    requires Sound(d, s) && HostTransaction(d, s, data, writes, changes, itemWrites).1.Ok? && k < |d.arrays|
    requires WellFormedTransaction(d, s, data, changes) && AllShaped(d.arrays, s.arrays)
    requires changes[k].Preserve? && i < |changes[k].topology| && j < |s.arrays[k].items|
    requires changes[k].topology[i] == Existing(s.arrays[k].items[j].identity)
    ensures var t, cleared := HostTransaction(d, s, data, writes, changes, itemWrites).0,
                              ClearedByItemWrites(d.arrays, s.arrays, itemWrites).0;
            && i < |t.arrays[k].items| && j < |cleared[k].items| && t.arrays[k].items[i] == cleared[k].items[j]
            && cleared[k].items[j].identity == s.arrays[k].items[j].identity
  {
    var t := HostTransaction(d, s, data, writes, changes, itemWrites).0;
    SuccessUnfolds(d, s, data, writes, changes, itemWrites);
    var cleared := ClearedByItemWrites(d.arrays, s.arrays, itemWrites).0;
    ItemWritesOnlyClear(d.arrays, s.arrays, itemWrites);
    ClearedAreSameItems(s.arrays, cleared);
    SoundItemsAreDistinct(d, s, k);
    assert FitsArray(d.arrays[k], s.arrays[k].items, changes[k], data);
    hide HostTransaction, Planned, PlannedItems, NamesLiveItems, ClearedByItemWrites, Sound, OnlyCleared, DistinctItems,
         AllShaped, WellFormedTransaction, PlanOf;
    var n := PlannedAt(d.arrays, cleared, PlansOf(s.arrays, changes), t.data, s.nextIdentity, k);
    PlacedItem(d.arrays[k], s.arrays[k].items, cleared[k].items, changes[k].topology, t.data, s.nextIdentity, n, i, j);
  }

  /** An item with a former identity is where the topology asks for that identity. */
  lemma KeptByTheTopology(d: Definition, s: State, data: Json, writes: seq<Pointer>, changes: seq<HostChange>,
                          itemWrites: seq<ItemWrite>, k: nat, i: nat, j: nat)
    requires Sound(d, s) && HostTransaction(d, s, data, writes, changes, itemWrites).1.Ok? && k < |d.arrays|
    requires i < |HostTransaction(d, s, data, writes, changes, itemWrites).0.arrays[k].items| && j < |s.arrays[k].items|
    requires HostTransaction(d, s, data, writes, changes, itemWrites).0.arrays[k].items[i].identity
          == s.arrays[k].items[j].identity
    ensures |changes| == |d.arrays| && changes[k].Preserve? && i < |changes[k].topology|
    ensures changes[k].topology[i] == Existing(s.arrays[k].items[j].identity)
  {
    ItemsFollowTheTopology(d, s, data, writes, changes, itemWrites, k);
    SoundItemsAreDistinct(d, s, k);
    hide HostTransaction, Sound, Survives;
  }

  /** An item that the topology keeps stands exactly when it is covered. */
  lemma KeptItemStands(d: Definition, s: State, data: Json, writes: seq<Pointer>, changes: seq<HostChange>,
                       itemWrites: seq<ItemWrite>, k: nat, i: nat, j: nat, before: Json, after: Json)
    requires Sound(d, s) && HostTransaction(d, s, data, writes, changes, itemWrites).1.Ok? && k < |d.arrays|
    requires |changes| == |d.arrays| && changes[k].Preserve? && i < |changes[k].topology| && j < |s.arrays[k].items|
    requires changes[k].topology[i] == Existing(s.arrays[k].items[j].identity)
    ensures var t := HostTransaction(d, s, data, writes, changes, itemWrites).0;
            && i < |t.arrays[k].items| && t.arrays[k].items[i].identity == s.arrays[k].items[j].identity
            && |t.arrays[k].items[i].edits| == |d.arrays[k].controls|
            && (EditsStand(d.arrays[k].controls, t.arrays[k].items[i].edits, before, after)
                <==> ItemCovered(d.arrays[k], k, s.arrays[k].items[j], before, after, itemWrites))
  {
    SuccessUnfolds(d, s, data, writes, changes, itemWrites);
    WhenTransactionsSucceed(d, s, data, writes, changes, itemWrites);
    hide HostTransaction, WellFormedTransaction, ClearedByItemWrites, Planned, EditsStand, ItemCovered, NamesLiveItem,
         Sound, AllShaped, JsonEqual, ClearedByWrites, PlansOf;
    KeptItemIsPlaced(d, s, data, writes, changes, itemWrites, k, i, j);
    CoveredItemStands(d, s, itemWrites, k, j, before, after);
  }

  lemma CoveredItemsStand(d: Definition, s: State, data: Json, writes: seq<Pointer>, changes: seq<HostChange>,
                          itemWrites: seq<ItemWrite>)
    requires Sound(d, s) && HostTransaction(d, s, data, writes, changes, itemWrites).1.Ok?
    requires Sound(d, HostTransaction(d, s, data, writes, changes, itemWrites).0)
    requires HostTransaction(d, s, data, writes, changes, itemWrites).0.data == DataToHold(s, data)
    requires WellFormedTransaction(d, s, data, changes)
    ensures ItemsStand(d, s, HostTransaction(d, s, data, writes, changes, itemWrites).0)
       <==> ItemsCovered(d, s, data, changes, itemWrites)
  {
    var t := HostTransaction(d, s, data, writes, changes, itemWrites).0;
    CountsOfNewData(d, s, data, changes);
    hide HostTransaction, WellFormedTransaction, EditsStand, ItemCovered, DataToHold, ValuesAt, Identified, Current;
    forall k, i, j | 0 <= k < |d.arrays| && changes[k].Preserve? && 0 <= i < |changes[k].topology|
                     && 0 <= j < |s.arrays[k].items|
                     && changes[k].topology[i] == Existing(s.arrays[k].items[j].identity)
      ensures i < |t.arrays[k].items| && t.arrays[k].items[i].identity == s.arrays[k].items[j].identity
      ensures EditsStand(d.arrays[k].controls, t.arrays[k].items[i].edits, ValuesAt(s.data, d.arrays[k].binding)[j],
                         ValuesAt(t.data, d.arrays[k].binding)[i])
         <==> ItemCovered(d.arrays[k], k, s.arrays[k].items[j], ValuesAt(s.data, d.arrays[k].binding)[j],
                          ValuesAt(t.data, d.arrays[k].binding)[i], itemWrites)
    {
      KeptItemStands(d, s, data, writes, changes, itemWrites, k, i, j, ValuesAt(s.data, d.arrays[k].binding)[j],
                     ValuesAt(t.data, d.arrays[k].binding)[i]);
    }
    forall k, i, j | 0 <= k < |d.arrays| && 0 <= i < |t.arrays[k].items| && 0 <= j < |s.arrays[k].items|
                     && t.arrays[k].items[i].identity == s.arrays[k].items[j].identity
      ensures changes[k].Preserve? && i < |changes[k].topology|
              && changes[k].topology[i] == Existing(s.arrays[k].items[j].identity)
    {
      KeptByTheTopology(d, s, data, writes, changes, itemWrites, k, i, j);
    }
  }

  /** What is left stands exactly when the writes cover what changes: the condition can be checked before the call. */
  lemma CoveringIsStanding(d: Definition, s: State, data: Json, writes: seq<Pointer>, changes: seq<HostChange>,
                           itemWrites: seq<ItemWrite>)
    requires Sound(d, s) && HostTransaction(d, s, data, writes, changes, itemWrites).1.Ok?
    ensures WellFormedTransaction(d, s, data, changes)
    ensures Sound(d, HostTransaction(d, s, data, writes, changes, itemWrites).0)
    ensures BuffersStand(d, s, HostTransaction(d, s, data, writes, changes, itemWrites).0)
       <==> WritesCover(d, s, data, writes, changes, itemWrites)
  {
    var t := HostTransaction(d, s, data, writes, changes, itemWrites).0;
    HostTransactionIsSound(d, s, data, writes, changes, itemWrites);
    SuccessUnfolds(d, s, data, writes, changes, itemWrites);
    CoveredControlsStand(d.controls, s.edits, s.data, t.data, writes);
    hide HostTransaction, WellFormedTransaction, EditsStand, ItemsStand, ControlsCovered, ItemsCovered, JsonEqual, ValuesAt,
         Identified, Current, AllShaped;
    CoveredItemsStand(d, s, data, writes, changes, itemWrites);
  }

  /** An accepted transaction keeps every buffer honest if and only if its writes cover what it changes. */
  lemma HonestWhenCovered(d: Definition, s: State, data: Json, writes: seq<Pointer>, changes: seq<HostChange>,
                          itemWrites: seq<ItemWrite>)
    requires Sound(d, s) && Honest(d, s) && HostTransaction(d, s, data, writes, changes, itemWrites).1.Ok?
    ensures WellFormedTransaction(d, s, data, changes)
    ensures Sound(d, HostTransaction(d, s, data, writes, changes, itemWrites).0)
    ensures Honest(d, HostTransaction(d, s, data, writes, changes, itemWrites).0)
       <==> WritesCover(d, s, data, writes, changes, itemWrites)
  {
    hide HostTransaction, Honest, WritesCover, BuffersStand, WellFormedTransaction;
    CoveringIsStanding(d, s, data, writes, changes, itemWrites);
    HonestWhenBuffersStand(d, s, data, writes, changes, itemWrites);
  }
}
