/** The loops over controls and arrays that the form's operations run. */
module FormLoops {
  import opened Bytes
  import opened Json
  import opened FormModel
  import opened ArrayOperations
  import opened ControlEdits
  import opened Structures
  import opened Lifecycle
  import opened HostTransactions

  // ------------------------------------------------------------------------ rebuilding arrays

  lemma PlannedPrefix(lists: seq<ArrayDefinition>, arrays: seq<ArrayState>, plans: seq<Plan>, data: Json, next: nat, k: nat)
    requires |lists| == |arrays| == |plans| && k < |arrays|
    ensures var (before, n) := Planned(lists[..k], arrays[..k], plans[..k], data, next);
            var (items, m) := PlannedItems(lists[k], arrays[k].items, plans[k], data, n);
            Planned(lists[..k + 1], arrays[..k + 1], plans[..k + 1], data, next)
            == (before + [arrays[k].(items := items)], m)
  {
    hide PlannedItems;
    assert lists[..k + 1][..k] == lists[..k] && arrays[..k + 1][..k] == arrays[..k] && plans[..k + 1][..k] == plans[..k];
    PlannedUnfolds(lists[..k + 1], arrays[..k + 1], plans[..k + 1], data, next);
  }

  /** What a loop over the arrays has built before index `k`. */
  ghost predicate BuiltUpTo(lists: seq<ArrayDefinition>, arrays: seq<ArrayState>, plans: seq<Plan>, data: Json, first: nat,
                            k: nat, built: seq<ArrayState>, next: nat) {
    && k <= |lists| == |arrays| == |plans| == |built|
    && (built[..k], next) == Planned(lists[..k], arrays[..k], plans[..k], data, first)
    && built[k..] == arrays[k..]
  }

  lemma BuiltOneMore(lists: seq<ArrayDefinition>, arrays: seq<ArrayState>, plans: seq<Plan>, data: Json, first: nat,
                     k: nat, built: seq<ArrayState>, next: nat, items: seq<Item>, m: nat)
    requires BuiltUpTo(lists, arrays, plans, data, first, k, built, next) && k < |arrays|
    requires (items, m) == PlannedItems(lists[k], arrays[k].items, plans[k], data, next)
    ensures BuiltUpTo(lists, arrays, plans, data, first, k + 1, built[k := arrays[k].(items := items)], m)
  {
    PlannedPrefix(lists, arrays, plans, data, first, k);
    hide PlannedItems, Planned;
    var after := built[k := arrays[k].(items := items)];
    assert after[..k + 1] == built[..k] + [arrays[k].(items := items)];
    assert after[k + 1..] == built[k..][1..] == arrays[k..][1..] == arrays[k + 1..];
  }

  lemma BuiltAll(lists: seq<ArrayDefinition>, arrays: seq<ArrayState>, plans: seq<Plan>, data: Json, first: nat,
                 built: seq<ArrayState>, next: nat)
    requires |lists| == |arrays| && BuiltUpTo(lists, arrays, plans, data, first, |arrays|, built, next)
    ensures (built, next) == Planned(lists, arrays, plans, data, first)
  {
    hide Planned;
    assert lists[..|arrays|] == lists && arrays[..|arrays|] == arrays && plans[..|arrays|] == plans;
    assert built[..|arrays|] == built;
  }

  /** `reconcile_authoritative_arrays`: new items for every array at or below the written place. */
  method ReconcileArrays(d: Definition, arrays: seq<ArrayState>, at: Pointer, data: Json, first: nat)
    returns (built: seq<ArrayState>, next: nat)
    requires |arrays| == |d.arrays|
    ensures (built, next) == Planned(d.arrays, arrays, BelowPlans(d, at), data, first)
  {
    built, next := arrays, first;
    for k := 0 to |arrays|
      invariant BuiltUpTo(d.arrays, arrays, BelowPlans(d, at), data, first, k, built, next)
    {
      var list := d.arrays[k];
      assert built[k] == built[k..][0] == arrays[k..][0] == arrays[k];
      var items, m := arrays[k].items, next;
      if at <= list.binding {
        var count := |ValuesAt(data, list.binding)|;
        items, m := FreshItems(list, count, next), next + count;
      }
      assert (items, m) == PlannedItems(list, arrays[k].items, BelowPlans(d, at)[k], data, next);
      hide Planned, PlannedItems, BuiltUpTo;
      BuiltOneMore(d.arrays, arrays, BelowPlans(d, at), data, first, k, built, next, items, m);
      built, next := built[k := arrays[k].(items := items)], m;
    }
    BuiltAll(d.arrays, arrays, BelowPlans(d, at), data, first, built, next);
  }

  /** New items for all arrays. */
  method RenewArrays(d: Definition, data: Json, first: nat) returns (built: seq<ArrayState>, next: nat)
    ensures (built, next) == FreshArrays(d, data, first)
  {
    var empty, plans := EmptyArrays(|d.arrays|), RenewAll(|d.arrays|);
    built, next := empty, first;
    for k := 0 to |d.arrays|
      invariant BuiltUpTo(d.arrays, empty, plans, data, first, k, built, next)
    {
      var count := |ValuesAt(data, d.arrays[k].binding)|;
      var items := FreshItems(d.arrays[k], count, next);
      assert (items, next + count) == PlannedItems(d.arrays[k], empty[k].items, plans[k], data, next);
      hide Planned, PlannedItems, BuiltUpTo;
      BuiltOneMore(d.arrays, empty, plans, data, first, k, built, next, items, next + count);
      built, next := built[k := ArrayState(items, false)], next + count;
    }
    BuiltAll(d.arrays, empty, plans, data, first, built, next);
  }

  // ------------------------------------------------------------------------ rearranging items

  /** The items not yet taken by the first entries of a topology. */
  ghost predicate NotYetTaken(items: seq<Item>, topology: seq<HostItem>, count: nat, previous: seq<Item>)
    requires count <= |topology|
  {
    && (forall p | 0 <= p < |previous| :: previous[p] in items)
    && forall j | 0 <= j < |items| && Existing(items[j].identity) !in topology[..count] :: items[j] in previous
  }

  /** The identity asked for is always found among the items not yet taken. */
  lemma NextIsFound(items: seq<Item>, topology: seq<HostItem>, count: nat, previous: seq<Item>, next: nat)
    requires Nameable(items, topology) && DistinctItems(items, next) && count < |topology| && topology[count].Existing?
    requires NotYetTaken(items, topology, count, previous)
    ensures ItemIndex(previous, topology[count].identity).Some?
    ensures forall list: ArrayDefinition ::
              previous[ItemIndex(previous, topology[count].identity).value]
              == ItemWith(list, items, topology[count].identity)
    ensures NotYetTaken(items, topology, count + 1,
                        RemoveAt(previous, ItemIndex(previous, topology[count].identity).value))
  {
    var identity := topology[count].identity;
    var j :| 0 <= j < |items| && Ids(items)[j] == identity;
    assert forall m | 0 <= m < count :: topology[..count][m] == topology[m];
    assert Existing(identity) !in topology[..count];
    assert items[j] in previous;
    var p := ItemIndex(previous, identity).value;
    SameItemByIdentity(items, previous[p], j, next);
    TakenOneMore(items, topology, count, previous, p);
  }

  lemma SameItemByIdentity(items: seq<Item>, item: Item, j: nat, next: nat)
    requires DistinctItems(items, next) && j < |items| && item in items && item.identity == items[j].identity
    ensures item == items[j]
    ensures forall list: ArrayDefinition :: ItemWith(list, items, items[j].identity) == items[j]
  {
  }

  lemma TakenOneMore(items: seq<Item>, topology: seq<HostItem>, count: nat, previous: seq<Item>, p: nat)
    requires count < |topology| && NotYetTaken(items, topology, count, previous) && p < |previous|
    requires topology[count] == Existing(previous[p].identity)
    ensures NotYetTaken(items, topology, count + 1, RemoveAt(previous, p))
  {
    assert topology[..count + 1] == topology[..count] + [topology[count]];
    assert previous == previous[..p] + [previous[p]] + previous[p + 1..];
    forall j | 0 <= j < |items| && Existing(items[j].identity) !in topology[..count + 1]
      ensures items[j] in RemoveAt(previous, p)
    {
      assert items[j] != previous[p];
    }
  }

  lemma FreshTakesNothing(items: seq<Item>, topology: seq<HostItem>, count: nat, previous: seq<Item>)
    requires count < |topology| && NotYetTaken(items, topology, count, previous) && topology[count].Fresh?
    ensures NotYetTaken(items, topology, count + 1, previous)
  {
    assert topology[..count + 1] == topology[..count] + [topology[count]];
  }

  lemma ArrangedPrefix(list: ArrayDefinition, items: seq<Item>, topology: seq<HostItem>, next: nat, count: nat)
    requires count < |topology|
    ensures var (before, n) := Arranged(list, items, topology[..count], next);
            Arranged(list, items, topology[..count + 1], next)
            == match topology[count]
               case Existing(identity) => (before + [ItemWith(list, items, identity)], n)
               case Fresh => (before + [NewItem(list, n)], n + 1)
  {
    hide ItemWith, NewItem;
    assert topology[..count + 1][..count] == topology[..count];
  }

  /** Rebuilds the items of one array by a validated topology: the lookup of an existing identity never fails. */
  method ArrangeItems(list: ArrayDefinition, items: seq<Item>, topology: seq<HostItem>, first: nat)
    returns (arranged: seq<Item>, next: nat)
    requires Nameable(items, topology) && DistinctItems(items, first)
    ensures (arranged, next) == Arranged(list, items, topology, first)
  {
    var previous := items;
    arranged, next := [], first;
    for i := 0 to |topology|
      invariant NotYetTaken(items, topology, i, previous)
      invariant (arranged, next) == Arranged(list, items, topology[..i], first)
    {
      hide NotYetTaken, Nameable, DistinctItems, ItemWith, NewItem, RemoveAt;
      ArrangedPrefix(list, items, topology, first, i);
      match topology[i]
      case Existing(identity) =>
        NextIsFound(items, topology, i, previous, first);
        var index := ItemIndex(previous, identity);
        arranged := arranged + [previous[index.value]];
        previous := RemoveAt(previous, index.value);
      case Fresh =>
        FreshTakesNothing(items, topology, i, previous);
        arranged := arranged + [NewItem(list, next)];
        next := next + 1;
    }
    assert topology[..|topology|] == topology;
  }

  /** The arrays after an accepted transaction of the host. */
  method RebuildArrays(d: Definition, arrays: seq<ArrayState>, ghost former: seq<ArrayState>, changes: seq<HostChange>, data: Json,
                       first: nat)
    returns (built: seq<ArrayState>, next: nat)
    requires |arrays| == |d.arrays| == |former| == |changes| && OnlyCleared(former, arrays)
    requires AllFeasible(arrays, PlansOf(former, changes)) && AllShaped(d.arrays, arrays)
    requires DistinctBelow(LiveIds(arrays), first)
    ensures (built, next) == Planned(d.arrays, arrays, PlansOf(former, changes), data, first)
  {
    built, next := arrays, first;
    ClearedKeepIds(former, arrays);
    for k := 0 to |arrays|
      invariant BuiltUpTo(d.arrays, arrays, PlansOf(former, changes), data, first, k, built, next) && first <= next
    {
      var list := d.arrays[k];
      RebuiltBefore(d.arrays, arrays, PlansOf(former, changes), data, first, k, built, next);
      var items, m := arrays[k].items, next;
      if changes[k].Replace? {
        var count := |ValuesAt(data, list.binding)|;
        items, m := FreshItems(list, count, next), next + count;
      } else if AsIs(arrays[k].items) != changes[k].topology {
        hide BuiltUpTo;
        assert Feasible(arrays[k].items, PlansOf(former, changes)[k]);
        items, m := ArrangeItems(list, arrays[k].items, changes[k].topology, next);
        ArrangedGrows(list, arrays[k].items, changes[k].topology, next);
      }
      assert (items, m) == PlannedItems(list, arrays[k].items, PlansOf(former, changes)[k], data, next);
      hide Planned, PlannedItems, BuiltUpTo;
      BuiltOneMore(d.arrays, arrays, PlansOf(former, changes), data, first, k, built, next, items, m);
      built, next := built[k := arrays[k].(items := items)], m;
    }
    BuiltAll(d.arrays, arrays, PlansOf(former, changes), data, first, built, next);
  }

  lemma RebuiltBefore(lists: seq<ArrayDefinition>, arrays: seq<ArrayState>, plans: seq<Plan>, data: Json, first: nat,
                      k: nat, built: seq<ArrayState>, next: nat)
    requires BuiltUpTo(lists, arrays, plans, data, first, k, built, next) && k < |arrays| && first <= next
    requires DistinctBelow(LiveIds(arrays), first)
    ensures built[k] == arrays[k] && DistinctItems(arrays[k].items, next)
  {
    assert built[k] == built[k..][0] == arrays[k..][0] == arrays[k];
    var ids := LiveIds(arrays);
    forall i | 0 <= i < |arrays[k].items| ensures arrays[k].items[i].identity < next {
      assert ids[k][i] < first;
    }
    forall i, j | 0 <= i < j < |arrays[k].items| ensures arrays[k].items[i].identity != arrays[k].items[j].identity {
      assert ids[k][i] != ids[k][j];
    }
    hide Planned;
  }

  // ------------------------------------------------------------------------ clearing and leaving

  /** Clears the edits bound at or below a place. */
  method ClearEdits(controls: seq<ControlDefinition>, edits: seq<EditState>, base: Pointer, at: Pointer)
    returns (cleared: seq<EditState>)
    requires |edits| == |controls|
    ensures cleared == ClearedEdits(controls, edits, base, at)
  {
    cleared := edits;
    for c := 0 to |edits|
      invariant |cleared| == |edits|
      invariant forall b | 0 <= b < c :: cleared[b] == ClearedEdits(controls, edits, base, at)[b]
      invariant forall b | c <= b < |edits| :: cleared[b] == edits[b]
    {
      if at <= base + controls[c].binding {
        cleared := cleared[c := Cleared(cleared[c])];
      }
    }
  }

  method ClearItems(list: ArrayDefinition, items: seq<Item>, at: Pointer) returns (cleared: seq<Item>)
    requires ItemsShaped(items, |list.controls|)
    ensures cleared == ClearedItems(list, items, at)
  {
    cleared := items;
    for i := 0 to |items|
      invariant |cleared| == |items|
      invariant forall j | 0 <= j < i :: cleared[j] == ClearedItems(list, items, at)[j]
      invariant forall j | i <= j < |items| :: cleared[j] == items[j]
    {
      hide ItemPointer;
      var edits := ClearEdits(list.controls, items[i].edits, ItemPointer(list.binding, i), at);
      cleared := cleared[i := items[i].(edits := edits)];
    }
  }

  /** The second half of `replace_structure` and of `remove_value`. */
  method ClearArrays(d: Definition, s: State, at: Pointer) returns (cleared: seq<ArrayState>)
    requires Shaped(d, s)
    ensures cleared == ClearedBelow(d, s, at).arrays
  {
    assert AllShaped(d.arrays, s.arrays);
    cleared := s.arrays;
    for k := 0 to |s.arrays|
      invariant |cleared| == |s.arrays|
      invariant forall l | 0 <= l < k :: cleared[l] == ClearedBelow(d, s, at).arrays[l]
      invariant forall l | k <= l < |s.arrays| :: cleared[l] == s.arrays[l]
    {
      assert ItemsShaped(s.arrays[k].items, |d.arrays[k].controls|);
      var items := ClearItems(d.arrays[k], s.arrays[k].items, at);
      cleared := cleared[k := s.arrays[k].(items := items)];
      assert cleared[k] == ClearedBelow(d, s, at).arrays[k];
    }
  }

  /** Clears the edits that a write of the host overlaps, and tells whether that changed anything. */
  method ClearWritten(controls: seq<ControlDefinition>, edits: seq<EditState>, writes: seq<Pointer>)
    returns (cleared: seq<EditState>, changed: bool)
    requires |edits| == |controls|
    ensures cleared == ClearedByWrites(controls, edits, writes) && changed == (cleared != edits)
  {
    cleared, changed := edits, false;
    for c := 0 to |edits|
      invariant |cleared| == |edits|
      invariant forall b | 0 <= b < c :: cleared[b] == ClearedByWrites(controls, edits, writes)[b]
      invariant forall b | c <= b < |edits| :: cleared[b] == edits[b]
      invariant changed <==> exists b :: 0 <= b < c && cleared[b] != edits[b]
    {
      if exists w | 0 <= w < |writes| :: Overlap(writes[w], controls[c].binding) {
        changed := changed || edits[c].buffer.Some? || edits[c].blocker.Some?;
        cleared := cleared[c := Cleared(edits[c])];
      }
    }
  }

  lemma ClearedStaysCleared(arrays: seq<ArrayState>, cleared: seq<ArrayState>, again: seq<ArrayState>)
    requires OnlyCleared(arrays, cleared) && OnlyCleared(cleared, again)
    ensures again == arrays ==> cleared == arrays
  {
    if again == arrays {
      forall k | 0 <= k < |arrays| ensures cleared[k] == arrays[k] {
        forall i | 0 <= i < |arrays[k].items| ensures cleared[k].items[i] == arrays[k].items[i] {
          assert OnlyClearedItem(arrays[k].items[i], cleared[k].items[i]);
          assert OnlyClearedItem(cleared[k].items[i], again[k].items[i]);
          assert cleared[k].items[i].edits == arrays[k].items[i].edits;
        }
        assert cleared[k].items == arrays[k].items;
      }
    }
  }

  lemma ItemWritesPrefix(lists: seq<ArrayDefinition>, arrays: seq<ArrayState>, writes: seq<ItemWrite>, w: nat)
    requires |lists| == |arrays| && AllShaped(lists, arrays) && w < |writes|
    ensures var (before, ok) := ClearedByItemWrites(lists, arrays, writes[..w]);
            ClearedByItemWrites(lists, arrays, writes[..w + 1])
            == if !ok || ClearedItem(lists, before, writes[w]).None? then (before, false)
               else (ClearedItem(lists, before, writes[w]).value, true)
  {
    hide ClearedItem;
    assert writes[..w + 1][..w] == writes[..w];
  }

  lemma {:induction false} DeadWritesStop(lists: seq<ArrayDefinition>, arrays: seq<ArrayState>, writes: seq<ItemWrite>, w: nat)
    requires |lists| == |arrays| && AllShaped(lists, arrays) && w <= |writes|
    requires !ClearedByItemWrites(lists, arrays, writes[..w]).1
    ensures ClearedByItemWrites(lists, arrays, writes) == ClearedByItemWrites(lists, arrays, writes[..w])
    decreases |writes| - w
  {
    if w < |writes| {
      ItemWritesPrefix(lists, arrays, writes, w);
      hide ClearedByItemWrites;
      DeadWritesStop(lists, arrays, writes, w + 1);
    } else {
      assert writes[..w] == writes;
    }
  }

  /** The item writes of a transaction, up to the first that names no live item. */
  method WriteItems(lists: seq<ArrayDefinition>, arrays: seq<ArrayState>, writes: seq<ItemWrite>)
    returns (cleared: seq<ArrayState>, live: bool, changed: bool)
    requires |lists| == |arrays| && AllShaped(lists, arrays)
    ensures (cleared, live) == ClearedByItemWrites(lists, arrays, writes) && changed == (cleared != arrays)
  {
    cleared, live, changed := arrays, true, false;
    for w := 0 to |writes|
      invariant |cleared| == |arrays| && AllShaped(lists, cleared)
      invariant (cleared, true) == ClearedByItemWrites(lists, arrays, writes[..w]) && changed == (cleared != arrays)
    {
      ItemWritesPrefix(lists, arrays, writes, w);
      ItemWritesOnlyClear(lists, arrays, writes[..w]);
      var write := writes[w];
      var i := if write.list < |cleared| then ItemIndex(cleared[write.list].items, write.identity) else None;
      if i.None? {
        DeadWritesStop(lists, arrays, writes, w + 1);
        return cleared, false, changed;
      }
      assert ItemsShaped(cleared[write.list].items, |lists[write.list].controls|);
      var item := cleared[write.list].items[i.value];
      var edits, dropped := ClearWritten(lists[write.list].controls, item.edits, [write.binding]);
      ghost var next := ClearedItem(lists, cleared, write).value;
      OneWriteOnlyClears(lists, cleared, write);
      ClearedStaysCleared(arrays, cleared, next);
      ItemChanges(cleared, write.list, i.value, edits);
      hide ClearedByItemWrites, OnlyCleared, ClearedByWrites;
      changed := changed || dropped;
      cleared := cleared[write.list := cleared[write.list].(items :=
        cleared[write.list].items[i.value := item.(edits := edits)])];
      assert cleared == next;
    }
    assert writes[..|writes|] == writes;
    return cleared, true, changed;
  }

  lemma ItemChanges(arrays: seq<ArrayState>, k: nat, i: nat, edits: seq<EditState>)
    requires k < |arrays| && i < |arrays[k].items|
    ensures var item := arrays[k].items[i];
            arrays[k := arrays[k].(items := arrays[k].items[i := item.(edits := edits)])] == arrays <==> edits == item.edits
  {
    var item := arrays[k].items[i];
    var after := arrays[k := arrays[k].(items := arrays[k].items[i := item.(edits := edits)])];
    if edits == item.edits {
      assert arrays[k].items[i := item.(edits := edits)] == arrays[k].items;
    } else {
      assert after[k].items[i].edits == edits;
    }
  }

  /** Finalizes every edit of a list, and tells whether that changed anything. */
  method FinalizeEdits(edits: seq<EditState>) returns (finalized: seq<EditState>, changed: bool)
    ensures finalized == FinalizedEdits(edits) && changed == (finalized != edits)
  {
    finalized, changed := edits, false;
    for c := 0 to |edits|
      invariant |finalized| == |edits|
      invariant forall b | 0 <= b < c :: finalized[b] == Finalized(edits[b])
      invariant forall b | c <= b < |edits| :: finalized[b] == edits[b]
      invariant changed <==> exists b :: 0 <= b < c && finalized[b] != edits[b]
    {
      changed := changed || (edits[c].blocker.None? && edits[c].buffer.Some?);
      finalized := finalized[c := Finalized(edits[c])];
    }
  }

  method FinalizeItems(items: seq<Item>) returns (finalized: seq<Item>, changed: bool)
    ensures finalized == FinalizedItems(items) && changed == (finalized != items)
  {
    finalized, changed := items, false;
    for i := 0 to |items|
      invariant |finalized| == |items|
      invariant forall j | 0 <= j < i :: finalized[j] == FinalizedItems(items)[j]
      invariant forall j | i <= j < |items| :: finalized[j] == items[j]
      invariant changed <==> exists j :: 0 <= j < i && finalized[j] != items[j]
    {
      hide FinalizedEdits;
      var edits, any := FinalizeEdits(items[i].edits);
      assert items[i].(edits := edits) != items[i] <==> edits != items[i].edits;
      changed := changed || any;
      finalized := finalized[i := items[i].(edits := edits)];
    }
  }

  method FinalizeArrays(arrays: seq<ArrayState>) returns (finalized: seq<ArrayState>, changed: bool)
    ensures finalized == FinalizedArrays(arrays) && changed == (finalized != arrays)
  {
    finalized, changed := arrays, false;
    for k := 0 to |arrays|
      invariant |finalized| == |arrays|
      invariant forall l | 0 <= l < k :: finalized[l] == FinalizedArrays(arrays)[l]
      invariant forall l | k <= l < |arrays| :: finalized[l] == arrays[l]
      invariant changed <==> exists l :: 0 <= l < k && finalized[l] != arrays[l]
    {
      hide FinalizedItems;
      var items, any := FinalizeItems(arrays[k].items);
      assert arrays[k].(items := items) != arrays[k] <==> items != arrays[k].items;
      changed := changed || any;
      finalized := finalized[k := arrays[k].(items := items)];
    }
  }

  /** Clears all traces of editing from a list of edits, and tells whether there were any. */
  method ClearLifecycle(edits: seq<EditState>) returns (cleared: seq<EditState>, changed: bool)
    ensures cleared == UntouchedEdits(|edits|) && changed == AnyEdited(edits)
  {
    cleared, changed := edits, false;
    for c := 0 to |edits|
      invariant |cleared| == |edits|
      invariant forall b | 0 <= b < c :: cleared[b] == UNTOUCHED
      invariant changed <==> exists b :: 0 <= b < c && edits[b] != UNTOUCHED
    {
      changed := changed || edits[c].buffer.Some? || edits[c].blocker.Some? || edits[c].touched;
      cleared := cleared[c := EditState(None, None, false)];
    }
  }

  method ClearItemLifecycles(items: seq<Item>) returns (cleared: seq<Item>, changed: bool)
    ensures |cleared| == |items|
    ensures forall i | 0 <= i < |items| :: cleared[i] == Item(items[i].identity, UntouchedEdits(|items[i].edits|))
    ensures changed <==> exists i :: 0 <= i < |items| && AnyEdited(items[i].edits)
  {
    cleared, changed := items, false;
    for i := 0 to |items|
      invariant |cleared| == |items|
      invariant forall j | 0 <= j < i :: cleared[j] == Item(items[j].identity, UntouchedEdits(|items[j].edits|))
      invariant changed <==> exists j :: 0 <= j < i && AnyEdited(items[j].edits)
    {
      hide AnyEdited;
      var edits, any := ClearLifecycle(items[i].edits);
      changed := changed || any;
      cleared := cleared[i := Item(items[i].identity, edits)];
    }
  }

  ghost predicate TouchedArray(a: ArrayState) {
    a.touched || exists i :: 0 <= i < |a.items| && AnyEdited(a.items[i].edits)
  }

  method ClearArrayLifecycles(arrays: seq<ArrayState>) returns (cleared: seq<ArrayState>, changed: bool)
    ensures |cleared| == |arrays|
    ensures forall k | 0 <= k < |arrays| :: !cleared[k].touched && |cleared[k].items| == |arrays[k].items|
              && forall i | 0 <= i < |arrays[k].items| ::
                   cleared[k].items[i] == Item(arrays[k].items[i].identity, UntouchedEdits(|arrays[k].items[i].edits|))
    ensures changed == AnyTouched(arrays)
  {
    cleared, changed := arrays, false;
    for k := 0 to |arrays|
      invariant |cleared| == |arrays|
      invariant forall l | 0 <= l < k :: !cleared[l].touched && |cleared[l].items| == |arrays[l].items|
                  && forall i | 0 <= i < |arrays[l].items| ::
                       cleared[l].items[i] == Item(arrays[l].items[i].identity, UntouchedEdits(|arrays[l].items[i].edits|))
      invariant changed <==> exists l :: 0 <= l < k && TouchedArray(arrays[l])
    {
      hide AnyEdited;
      var items, any := ClearItemLifecycles(arrays[k].items);
      changed := changed || arrays[k].touched || any;
      cleared := cleared[k := ArrayState(items, false)];
    }
    TouchedSomewhere(arrays);
  }

  lemma TouchedSomewhere(arrays: seq<ArrayState>)
    ensures AnyTouched(arrays) <==> exists k :: 0 <= k < |arrays| && TouchedArray(arrays[k])
  {
    if AnyTouched(arrays) {
      var k :| 0 <= k < |arrays| && (arrays[k].touched || exists i, c | 0 <= i < |arrays[k].items| && 0 <= c < |arrays[k].items[i].edits| ::
                                                           arrays[k].items[i].edits[c] != UNTOUCHED);
      if !arrays[k].touched {
        var i, c :| 0 <= i < |arrays[k].items| && 0 <= c < |arrays[k].items[i].edits| && arrays[k].items[i].edits[c] != UNTOUCHED;
        assert AnyEdited(arrays[k].items[i].edits);
      }
      assert TouchedArray(arrays[k]);
    }
    if k :| 0 <= k < |arrays| && TouchedArray(arrays[k]) {
      if !arrays[k].touched {
        var i :| 0 <= i < |arrays[k].items| && AnyEdited(arrays[k].items[i].edits);
        var c :| 0 <= c < |arrays[k].items[i].edits| && arrays[k].items[i].edits[c] != UNTOUCHED;
        assert arrays[k].items[i].edits[c] != UNTOUCHED;
      }
    }
  }
}
