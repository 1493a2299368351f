/** Transactions of the host: new data together with the topology of every array. */
module HostTransactions {
  import opened Bytes
  import opened Json
  import opened FormModel
  import opened ArrayOperations
  import opened ControlEdits
  import opened Structures
  import opened Lifecycle

  datatype HostChange = Preserve(topology: seq<HostItem>) | Replace

  datatype ItemWrite = ItemWrite(list: nat, identity: nat, binding: Pointer)

  // ------------------------------------------------------------------------- validation

  /** Every entry names a live item, and none is named twice. */
  predicate NamesLiveItems(items: seq<Item>, topology: seq<HostItem>) {
    && (forall i | 0 <= i < |topology| && topology[i].Existing? :: ItemIndex(items, topology[i].identity).Some?)
    && forall i, j | 0 <= i < j < |topology| && topology[i].Existing? && topology[j].Existing? ::
         topology[i].identity != topology[j].identity
  }

  predicate FitsArray(list: ArrayDefinition, items: seq<Item>, change: HostChange, data: Json) {
    change.Preserve? ==>
      |change.topology| == |ValuesAt(data, list.binding)| && NamesLiveItems(items, change.topology)
  }

  /** The root is an object, and every preserved topology fits the new data and the live items. */
  predicate WellFormedTransaction(d: Definition, s: State, data: Json, changes: seq<HostChange>)
    requires Shaped(d, s)
  {
    && data.Object? && |changes| == |s.arrays|
    && forall k | 0 <= k < |changes| :: FitsArray(d.arrays[k], s.arrays[k].items, changes[k], data)
  }

  lemma LiveItemsAreNameable(items: seq<Item>, topology: seq<HostItem>)
    requires NamesLiveItems(items, topology)
    ensures Nameable(items, topology)
  {
    forall i | 0 <= i < |topology| && topology[i].Existing? ensures topology[i].identity in Ids(items) {
      assert Ids(items)[ItemIndex(items, topology[i].identity).value] == topology[i].identity;
    }
  }

  // --------------------------------------------------------------------- clearing what is written

  predicate Overlap(p: Pointer, q: Pointer) {
    p <= q || q <= p
  }

  predicate Hits(writes: seq<Pointer>, binding: Pointer) {
    exists w | 0 <= w < |writes| :: Overlap(writes[w], binding)
  }

  /** Some write leads through the binding, or the binding through it. */
  predicate Touches(writes: seq<Pointer>, binding: Pointer) {
    exists w | 0 <= w < |writes| :: !Apart(writes[w], binding)
  }

  lemma HittingIsTouching(writes: seq<Pointer>, binding: Pointer)
    ensures Hits(writes, binding) <==> Touches(writes, binding)
  {
  }

  function ClearedByWrites(controls: seq<ControlDefinition>, edits: seq<EditState>, writes: seq<Pointer>)
    : (cleared: seq<EditState>)
    requires |edits| == |controls|
    ensures |cleared| == |edits|
    ensures forall c | 0 <= c < |edits| ::
              cleared[c] == if Hits(writes, controls[c].binding) then Cleared(edits[c]) else edits[c]
  {
    seq(|edits|, c requires 0 <= c < |edits| => if Hits(writes, controls[c].binding) then Cleared(edits[c]) else edits[c])
  }

  /** One item write: nothing when it names no live item. */
  function ClearedItem(lists: seq<ArrayDefinition>, arrays: seq<ArrayState>, write: ItemWrite): (cleared: Option<seq<ArrayState>>)
    requires |lists| == |arrays| && AllShaped(lists, arrays)
    ensures cleared.Some? ==> |cleared.value| == |arrays| && AllShaped(lists, cleared.value)
  {
    if write.list >= |arrays| then None
    else
      var items := arrays[write.list].items;
      var i := ItemIndex(items, write.identity);
      if i.None? then None
      else
        assert ItemsShaped(items, |lists[write.list].controls|);
        var edits := ClearedByWrites(lists[write.list].controls, items[i.value].edits, [write.binding]);
        var cleared := arrays[write.list := arrays[write.list].(items := items[i.value := items[i.value].(edits := edits)])];
        assert AllShaped(lists, cleared) by {
          forall k | 0 <= k < |arrays| ensures ItemsShaped(cleared[k].items, |lists[k].controls|) {
            assert ItemsShaped(arrays[k].items, |lists[k].controls|);
          }
        }
        Some(cleared)
  }

  /** The item writes in turn, up to the first that names no live item; whether all were made. */
  function ClearedByItemWrites(lists: seq<ArrayDefinition>, arrays: seq<ArrayState>, writes: seq<ItemWrite>)
    : (cleared: (seq<ArrayState>, bool))
    requires |lists| == |arrays| && AllShaped(lists, arrays)
    ensures |cleared.0| == |arrays| && AllShaped(lists, cleared.0)
  {
    if writes == [] then (arrays, true)
    else
      var (before, ok) := ClearedByItemWrites(lists, arrays, writes[..|writes| - 1]);
      if !ok then (before, false)
      else
        var next := ClearedItem(lists, before, writes[|writes| - 1]);
        if next.None? then (before, false) else (next.value, true)
  }

  // ------------------------------------------------------------------------ the transaction

  function PlanOf(items: seq<Item>, change: HostChange): Plan {
    match change
    case Replace => Renew
    case Preserve(topology) => if topology == AsIs(items) then Keep else Rearrange(topology)
  }

  /** The topology that keeps every item in place. */
  function AsIs(items: seq<Item>): (topology: seq<HostItem>)
    ensures |topology| == |items| && forall i | 0 <= i < |items| :: topology[i] == Existing(items[i].identity)
  {
    seq(|items|, i requires 0 <= i < |items| => Existing(items[i].identity))
  }

  function PlansOf(arrays: seq<ArrayState>, changes: seq<HostChange>): (plans: seq<Plan>)
    requires |arrays| == |changes|
    ensures |plans| == |arrays| && forall k | 0 <= k < |arrays| :: plans[k] == PlanOf(arrays[k].items, changes[k])
  {
    seq(|arrays|, k requires 0 <= k < |arrays| => PlanOf(arrays[k].items, changes[k]))
  }

  predicate AnyMoved(plans: seq<Plan>) {
    exists k | 0 <= k < |plans| :: plans[k] != Keep
  }

  /** `apply_host_transaction`. An item write that names no live item fails only after buffers were cleared. */
  function HostTransaction(d: Definition, s: State, data: Json, writes: seq<Pointer>, changes: seq<HostChange>,
                           itemWrites: seq<ItemWrite>): (State, Result<(), CreateFormError>)
    requires Shaped(d, s)
  {
    if !WellFormedTransaction(d, s, data, changes) then (s, Err(FormDataMustBeObject))
    else
      var edits := ClearedByWrites(d.controls, s.edits, writes);
      assert AllShaped(d.arrays, s.arrays);
      var (arrays, live) := ClearedByItemWrites(d.arrays, s.arrays, itemWrites);
      if !live then (s.(edits := edits, arrays := arrays), Err(FormDataMustBeObject))
      else
        (Committed(d, s, data, edits, arrays, changes), Ok(()))
  }

  /** The form with the new data and topologies, once the written buffers are cleared. */
  function Committed(d: Definition, s: State, data: Json, edits: seq<EditState>, arrays: seq<ArrayState>,
                     changes: seq<HostChange>): State
    requires Shaped(d, s) && |arrays| == |changes| == |s.arrays|
  {
    var plans := PlansOf(s.arrays, changes);
    var dataChanged := !JsonEqual(s.data, data);
    var stateChanged := dataChanged || AnyMoved(plans) || edits != s.edits || arrays != s.arrays;
    var data' := if dataChanged then data else s.data;
    var (planned, next) := Planned(d.arrays, arrays, plans, data', s.nextIdentity);
    s.(edits := edits, arrays := planned, nextIdentity := next, data := data',
       batches := if dataChanged then [] else s.batches,
       dataRevision := if dataChanged then s.dataRevision + 1 else s.dataRevision,
       stateRevision := if stateChanged then s.stateRevision + 1 else s.stateRevision)
  }

  // --------------------------------------------------------------------- what clearing leaves

  /** The same items in the same places, each with its buffers or without some of them. */
  ghost predicate OnlyCleared(arrays: seq<ArrayState>, cleared: seq<ArrayState>) {
    && |cleared| == |arrays|
    && forall k | 0 <= k < |arrays| ::
         && cleared[k].touched == arrays[k].touched && |cleared[k].items| == |arrays[k].items|
         && forall i | 0 <= i < |arrays[k].items| :: OnlyClearedItem(arrays[k].items[i], cleared[k].items[i])
  }

  ghost predicate OnlyClearedItem(item: Item, cleared: Item) {
    && cleared.identity == item.identity && |cleared.edits| == |item.edits|
    && forall c | 0 <= c < |item.edits| :: cleared.edits[c] == item.edits[c] || cleared.edits[c] == Cleared(item.edits[c])
  }

  lemma {:induction false} ItemWritesOnlyClear(lists: seq<ArrayDefinition>, arrays: seq<ArrayState>, writes: seq<ItemWrite>)
    requires |lists| == |arrays| && AllShaped(lists, arrays)
    ensures OnlyCleared(arrays, ClearedByItemWrites(lists, arrays, writes).0)
  {
    if writes != [] {
      ItemWritesOnlyClear(lists, arrays, writes[..|writes| - 1]);
      var before := ClearedByItemWrites(lists, arrays, writes[..|writes| - 1]).0;
      var next := ClearedItem(lists, before, writes[|writes| - 1]);
      if next.Some? {
        OneWriteOnlyClears(lists, before, writes[|writes| - 1]);
        hide ClearedItem, OnlyClearedItem;
        forall k, i | 0 <= k < |arrays| && 0 <= i < |arrays[k].items|
          ensures OnlyClearedItem(arrays[k].items[i], next.value[k].items[i])
        {
          ClearingComposes(arrays[k].items[i], before[k].items[i], next.value[k].items[i]);
        }
      }
    }
  }

  lemma ClearingComposes(a: Item, b: Item, c: Item)
    requires OnlyClearedItem(a, b) && OnlyClearedItem(b, c)
    ensures OnlyClearedItem(a, c)
  {
  }

  lemma OneWriteOnlyClears(lists: seq<ArrayDefinition>, arrays: seq<ArrayState>, write: ItemWrite)
    requires |lists| == |arrays| && AllShaped(lists, arrays) && ClearedItem(lists, arrays, write).Some?
    ensures OnlyCleared(arrays, ClearedItem(lists, arrays, write).value)
  {
    assert ItemsShaped(arrays[write.list].items, |lists[write.list].controls|);
  }

  lemma ClearedKeepIds(arrays: seq<ArrayState>, cleared: seq<ArrayState>)
    requires OnlyCleared(arrays, cleared)
    ensures LiveIds(cleared) == LiveIds(arrays)
    ensures forall k | 0 <= k < |arrays| :: AsIs(cleared[k].items) == AsIs(arrays[k].items)
  {
    forall k | 0 <= k < |arrays|
      ensures Ids(cleared[k].items) == Ids(arrays[k].items) && AsIs(cleared[k].items) == AsIs(arrays[k].items)
    {
      forall i | 0 <= i < |arrays[k].items| ensures cleared[k].items[i].identity == arrays[k].items[i].identity {
        assert OnlyClearedItem(arrays[k].items[i], cleared[k].items[i]);
      }
    }
  }

  // ------------------------------------------------------------------------- what it keeps

  lemma PlansAreFeasible(d: Definition, s: State, data: Json, changes: seq<HostChange>, cleared: seq<ArrayState>)
    requires Shaped(d, s) && WellFormedTransaction(d, s, data, changes) && OnlyCleared(s.arrays, cleared)
    ensures AllFeasible(cleared, PlansOf(s.arrays, changes))
  {
    ClearedKeepIds(s.arrays, cleared);
    forall k | 0 <= k < |cleared| ensures Feasible(cleared[k].items, PlansOf(s.arrays, changes)[k]) {
      assert FitsArray(d.arrays[k], s.arrays[k].items, changes[k], data);
      assert LiveIds(cleared)[k] == LiveIds(s.arrays)[k];
      if changes[k].Preserve? {
        LiveItemsAreNameable(s.arrays[k].items, changes[k].topology);
      }
    }
  }

  lemma PlannedCount(d: Definition, s: State, data: Json, changes: seq<HostChange>, cleared: seq<ArrayState>, data': Json, k: nat)
    requires Shaped(d, s) && Aligned(d, s) && WellFormedTransaction(d, s, data, changes) && OnlyCleared(s.arrays, cleared)
    requires JsonEqual(data', data) && k < |d.arrays|
    ensures |Planned(d.arrays, cleared, PlansOf(s.arrays, changes), data', s.nextIdentity).0[k].items|
         == |ValuesAt(data', d.arrays[k].binding)|
  {
    var plans := PlansOf(s.arrays, changes);
    EqualDataHasEqualCounts(data', data, d.arrays[k].binding);
    PlansAreFeasible(d, s, data, changes, cleared);
    var n := PlannedAt(d.arrays, cleared, plans, data', s.nextIdentity, k);
    assert FitsArray(d.arrays[k], s.arrays[k].items, changes[k], data);
    assert Feasible(cleared[k].items, plans[k]);
    if plans[k].Rearrange? {
      ArrangedFollows(d.arrays[k], cleared[k].items, plans[k].topology, n);
    }
    hide Planned, JsonEqual, ValuesAt;
  }

  lemma CommittedIsSound(d: Definition, s: State, data: Json, edits: seq<EditState>, arrays: seq<ArrayState>,
                         changes: seq<HostChange>)
    requires Sound(d, s) && WellFormedTransaction(d, s, data, changes) && |edits| == |s.edits|
    requires |arrays| == |d.arrays| && AllShaped(d.arrays, arrays) && OnlyCleared(s.arrays, arrays)
    ensures Sound(d, Committed(d, s, data, edits, arrays, changes))
  {
    var t := Committed(d, s, data, edits, arrays, changes);
    ClearedKeepIds(s.arrays, arrays);
    PlansAreFeasible(d, s, data, changes, arrays);
    PlannedFollows(d.arrays, arrays, PlansOf(s.arrays, changes), t.data, s.nextIdentity);
    LaterIdsStayDistinct(s.baselineIds, s.nextIdentity, t.nextIdentity);
    EqualToItself(data);
    hide JsonEqual, ValuesAt, WellFormedTransaction, DistinctBelow, OnlyCleared;
    forall k | 0 <= k < |d.arrays|
      ensures |t.arrays[k].items| == |ValuesAt(t.data, d.arrays[k].binding)|
      ensures ItemsShaped(t.arrays[k].items, |d.arrays[k].controls|)
    {
      PlannedCount(d, s, data, changes, arrays, t.data, k);
    }
    hide Planned;
  }

  lemma ClearedFormIsSound(d: Definition, s: State, edits: seq<EditState>, arrays: seq<ArrayState>)
    requires Sound(d, s) && |edits| == |s.edits|
    requires |arrays| == |d.arrays| && AllShaped(d.arrays, arrays) && OnlyCleared(s.arrays, arrays)
    ensures Sound(d, s.(edits := edits, arrays := arrays))
  {
    ClearedKeepIds(s.arrays, arrays);
    hide ValuesAt, DistinctBelow;
    forall k | 0 <= k < |d.arrays| ensures ItemsShaped(arrays[k].items, |d.arrays[k].controls|) {
    }
  }

  lemma HostTransactionIsSound(d: Definition, s: State, data: Json, writes: seq<Pointer>, changes: seq<HostChange>,
                               itemWrites: seq<ItemWrite>)
    requires Sound(d, s)
    ensures Sound(d, HostTransaction(d, s, data, writes, changes, itemWrites).0)
  {
    if WellFormedTransaction(d, s, data, changes) {
      assert AllShaped(d.arrays, s.arrays);
      var edits := ClearedByWrites(d.controls, s.edits, writes);
      var (arrays, live) := ClearedByItemWrites(d.arrays, s.arrays, itemWrites);
      ItemWritesOnlyClear(d.arrays, s.arrays, itemWrites);
      hide WellFormedTransaction, ClearedByItemWrites, OnlyCleared, Committed, AllShaped;
      if live {
        CommittedIsSound(d, s, data, edits, arrays, changes);
      } else {
        ClearedFormIsSound(d, s, edits, arrays);
      }
    }
  }

  // ---------------------------------------------------------------- the requested topology

  /** An item that survives from the former list, perhaps with cleared buffers. */
  ghost predicate Survives(former: seq<Item>, item: Item) {
    exists j :: 0 <= j < |former| && OnlyClearedItem(former[j], item)
  }

  ghost predicate IsNew(list: ArrayDefinition, item: Item, first: nat) {
    first <= item.identity && item == NewItem(list, item.identity)
  }

  lemma ClearedItemsSurvive(former: seq<Item>, cleared: seq<Item>, item: Item)
    requires |cleared| == |former| && forall i | 0 <= i < |former| :: OnlyClearedItem(former[i], cleared[i])
    requires item in cleared
    ensures Survives(former, item)
  {
    var i :| 0 <= i < |cleared| && cleared[i] == item;
    assert OnlyClearedItem(former[i], item);
  }

  /** The items stand where the change asks for them: each survives, or is new. */
  ghost predicate FollowsChange(list: ArrayDefinition, former: seq<Item>, change: HostChange, first: nat, items: seq<Item>) {
    && (change.Preserve? ==> |items| == |change.topology|)
    && forall i | 0 <= i < |items| ::
         if change.Replace? then IsNew(list, items[i], first)
         else match change.topology[i]
              case Existing(identity) => items[i].identity == identity && Survives(former, items[i])
              case Fresh => IsNew(list, items[i], first)
  }

  lemma PlanYields(list: ArrayDefinition, former: seq<Item>, cleared: seq<Item>, change: HostChange, data: Json,
                   first: nat, n: nat)
    requires |cleared| == |former| && forall i | 0 <= i < |former| :: OnlyClearedItem(former[i], cleared[i])
    requires change.Preserve? ==> NamesLiveItems(former, change.topology)
    requires first <= n
    ensures FollowsChange(list, former, change, first, PlannedItems(list, cleared, PlanOf(former, change), data, n).0)
  {
    hide OnlyClearedItem, ValuesAt, Survives, Arranged, NamesLiveItems;
    if change.Preserve? {
      if change.topology == AsIs(former) {
        forall i | 0 <= i < |cleared| ensures cleared[i].identity == former[i].identity && Survives(former, cleared[i]) {
          ClearedItemsSurvive(former, cleared, cleared[i]);
          SameIdentity(former[i], cleared[i]);
        }
      } else {
        ArrangedSurvive(list, former, cleared, change.topology, first, n);
      }
    }
  }

  lemma ArrangedSurvive(list: ArrayDefinition, former: seq<Item>, cleared: seq<Item>, topology: seq<HostItem>,
                        first: nat, n: nat)
    requires |cleared| == |former| && forall i | 0 <= i < |former| :: OnlyClearedItem(former[i], cleared[i])
    requires NamesLiveItems(former, topology) && first <= n
    ensures FollowsChange(list, former, Preserve(topology), first, Arranged(list, cleared, topology, n).0)
  {
    LiveItemsAreNameable(former, topology);
    SameIds(former, cleared);
    ArrangedFollows(list, cleared, topology, n);
    hide OnlyClearedItem, Survives, Arranged, NamesLiveItems;
    var items := Arranged(list, cleared, topology, n).0;
    forall i | 0 <= i < |items| && topology[i].Existing? ensures Survives(former, items[i]) {
      ClearedItemsSurvive(former, cleared, items[i]);
    }
  }

  lemma SameIdentity(item: Item, cleared: Item)
    requires OnlyClearedItem(item, cleared)
    ensures item.identity == cleared.identity
  {
  }

  lemma SameIds(former: seq<Item>, cleared: seq<Item>)
    requires |cleared| == |former| && forall i | 0 <= i < |former| :: OnlyClearedItem(former[i], cleared[i])
    ensures Ids(former) == Ids(cleared)
  {
    forall i | 0 <= i < |former| ensures former[i].identity == cleared[i].identity {
      SameIdentity(former[i], cleared[i]);
    }
  }

  lemma SuccessUnfolds(d: Definition, s: State, data: Json, writes: seq<Pointer>, changes: seq<HostChange>,
                       itemWrites: seq<ItemWrite>)
    requires Shaped(d, s) && HostTransaction(d, s, data, writes, changes, itemWrites).1.Ok?
    ensures WellFormedTransaction(d, s, data, changes) && AllShaped(d.arrays, s.arrays)
    ensures var t := HostTransaction(d, s, data, writes, changes, itemWrites).0;
            && t.edits == ClearedByWrites(d.controls, s.edits, writes)
            && t.data == (if JsonEqual(s.data, data) then s.data else data)
            && t.arrays == Planned(d.arrays, ClearedByItemWrites(d.arrays, s.arrays, itemWrites).0,
                                   PlansOf(s.arrays, changes), t.data, s.nextIdentity).0
  {
    hide JsonEqual, Planned, ClearedByItemWrites, WellFormedTransaction;
  }

  /** An accepted transaction gives every array the requested topology, in order; every surviving identity carries
  its own control states, save for the buffers that were cleared. */
  lemma ItemsFollowTheTopology(d: Definition, s: State, data: Json, writes: seq<Pointer>, changes: seq<HostChange>,
                               itemWrites: seq<ItemWrite>, k: nat)
    requires Sound(d, s) && HostTransaction(d, s, data, writes, changes, itemWrites).1.Ok? && k < |d.arrays|
    ensures |changes| == |d.arrays|
    ensures FollowsChange(d.arrays[k], s.arrays[k].items, changes[k], s.nextIdentity,
                          HostTransaction(d, s, data, writes, changes, itemWrites).0.arrays[k].items)
  {
    var t := HostTransaction(d, s, data, writes, changes, itemWrites).0;
    SuccessUnfolds(d, s, data, writes, changes, itemWrites);
    var cleared := ClearedByItemWrites(d.arrays, s.arrays, itemWrites).0;
    ItemWritesOnlyClear(d.arrays, s.arrays, itemWrites);
    assert FitsArray(d.arrays[k], s.arrays[k].items, changes[k], data);
    hide HostTransaction, Planned, PlannedItems, FollowsChange, NamesLiveItems, ClearedByItemWrites;
    var n := PlannedAt(d.arrays, cleared, PlansOf(s.arrays, changes), t.data, s.nextIdentity, k);
    PlanYields(d.arrays[k], s.arrays[k].items, cleared[k].items, changes[k], t.data, s.nextIdentity, n);
  }

  // ------------------------------------------------------------------------- honest buffers

  /** The value under a buffer without a blocker is still there. */
  ghost predicate StillStands(edit: EditState, before: Option<Json>, after: Option<Json>) {
    edit.buffer.Some? && edit.blocker.None? ==> OptionallyEqual(before, after)
  }

  lemma StandingIsHonesty(control: ControlDefinition, edit: EditState, before: Option<Json>, after: Option<Json>)
    requires HonestEdit(control, edit, before)
    ensures HonestEdit(control, edit, after) <==> StillStands(edit, before, after)
  {
    if edit.buffer.Some? && edit.blocker.None? && after.Some? {
      hide Meant;
      var meant := Meant(control.kind, edit.buffer.value).value;
      if JsonEqual(before.value, after.value) {
        EqualIsSymmetric(before.value, after.value);
        EqualIsTransitive(after.value, before.value, meant);
      } else if JsonEqual(after.value, meant) {
        EqualIsSymmetric(after.value, meant);
        EqualIsTransitive(before.value, meant, after.value);
      }
    }
  }

  ghost predicate EditsStand(controls: seq<ControlDefinition>, edits: seq<EditState>, before: Json, after: Json)
    requires |edits| == |controls|
  {
    forall c | 0 <= c < |controls| ::
      StillStands(edits[c], Resolve(before, controls[c].binding), Resolve(after, controls[c].binding))
  }

  lemma StandingEditsAreHonest(controls: seq<ControlDefinition>, edits: seq<EditState>, before: Json, after: Json)
    requires |edits| == |controls| && HonestEdits(controls, edits, before)
    ensures HonestEdits(controls, edits, after) <==> EditsStand(controls, edits, before, after)
  {
    hide StillStands, HonestEdit;
    forall c | 0 <= c < |controls|
      ensures HonestEdit(controls[c], edits[c], Resolve(after, controls[c].binding))
         <==> StillStands(edits[c], Resolve(before, controls[c].binding), Resolve(after, controls[c].binding))
    {
      StandingIsHonesty(controls[c], edits[c], Resolve(before, controls[c].binding), Resolve(after, controls[c].binding));
    }
  }

  ghost predicate ItemsStand(d: Definition, s: State, t: State)
    requires Shaped(d, s) && Aligned(d, s) && Shaped(d, t) && Aligned(d, t)
  {
    forall k, i, j | 0 <= k < |d.arrays| && 0 <= i < |t.arrays[k].items| && 0 <= j < |s.arrays[k].items|
                     && t.arrays[k].items[i].identity == s.arrays[k].items[j].identity ::
      EditsStand(d.arrays[k].controls, t.arrays[k].items[i].edits, ValuesAt(s.data, d.arrays[k].binding)[j],
                 ValuesAt(t.data, d.arrays[k].binding)[i])
  }

  /** What the buffers left stand for is unchanged: on its own, or in the items that survive, wherever they now are. */
  ghost predicate BuffersStand(d: Definition, s: State, t: State)
    requires Shaped(d, s) && Aligned(d, s) && Shaped(d, t) && Aligned(d, t)
  {
    EditsStand(d.controls, t.edits, s.data, t.data) && ItemsStand(d, s, t)
  }

  lemma ClearedEditsAreHonest(controls: seq<ControlDefinition>, former: seq<EditState>, edits: seq<EditState>, value: Json)
    requires |former| == |controls| == |edits| && HonestEdits(controls, former, value)
    requires forall c | 0 <= c < |controls| :: edits[c] == former[c] || edits[c] == Cleared(former[c])
    ensures HonestEdits(controls, edits, value)
  {
    hide Resolve;
  }

  /** Every item survives from one place of its former list, or holds no buffers and has an identity of its own. */
  lemma ItemHasAnOrigin(list: ArrayDefinition, former: seq<Item>, change: HostChange, first: nat, items: seq<Item>, i: nat)
    requires FollowsChange(list, former, change, first, items) && i < |items| && DistinctItems(former, first)
    ensures Survives(former, items[i]) || (IsNew(list, items[i], first)
                                          && forall j | 0 <= j < |former| :: former[j].identity != items[i].identity)
  {
  }

  /** The item, over its value, stands for what its former self stood for. */
  ghost predicate StandsAsBefore(list: ArrayDefinition, former: seq<Item>, values: seq<Json>, item: Item, value: Json)
    requires |former| == |values| && |item.edits| == |list.controls|
  {
    forall j | 0 <= j < |former| && item.identity == former[j].identity ::
      EditsStand(list.controls, item.edits, values[j], value)
  }

  ghost predicate HonestItems(list: ArrayDefinition, items: seq<Item>, values: seq<Json>) {
    && |items| == |values| && ItemsShaped(items, |list.controls|)
    && forall j | 0 <= j < |items| :: HonestEdits(list.controls, items[j].edits, values[j])
  }

  lemma SurvivorsStand(list: ArrayDefinition, former: seq<Item>, values: seq<Json>, item: Item, value: Json, first: nat)
    requires HonestItems(list, former, values) && DistinctItems(former, first) && |item.edits| == |list.controls|
    requires Survives(former, item)
    ensures HonestEdits(list.controls, item.edits, value) <==> StandsAsBefore(list, former, values, item, value)
  {
    var j :| 0 <= j < |former| && OnlyClearedItem(former[j], item);
    hide HonestEdits, EditsStand;
    SameIdentity(former[j], item);
    ClearedEditsAreHonest(list.controls, former[j].edits, item.edits, values[j]);
    StandingEditsAreHonest(list.controls, item.edits, values[j], value);
    assert forall l | 0 <= l < |former| && item.identity == former[l].identity :: l == j;
  }

  lemma ItemHonestyIsStanding(list: ArrayDefinition, former: seq<Item>, values: seq<Json>, item: Item, value: Json, first: nat)
    requires HonestItems(list, former, values) && DistinctItems(former, first) && |item.edits| == |list.controls|
    requires Survives(former, item)
          || (IsNew(list, item, first) && forall j | 0 <= j < |former| :: former[j].identity != item.identity)
    ensures HonestEdits(list.controls, item.edits, value) <==> StandsAsBefore(list, former, values, item, value)
  {
    if Survives(former, item) {
      SurvivorsStand(list, former, values, item, value, first);
    } else {
      UntouchedIsHonest(list.controls, value);
      hide Survives, EditsStand, HonestEdits;
    }
  }

  lemma HonestFormHasHonestItems(d: Definition, s: State, k: nat)
    requires Shaped(d, s) && Aligned(d, s) && Honest(d, s) && k < |d.arrays|
    ensures HonestItems(d.arrays[k], s.arrays[k].items, ValuesAt(s.data, d.arrays[k].binding))
  {
    hide HonestEdits, ValuesAt;
    forall j | 0 <= j < |s.arrays[k].items|
      ensures HonestEdits(d.arrays[k].controls, s.arrays[k].items[j].edits, ValuesAt(s.data, d.arrays[k].binding)[j])
    {
      assert HonestRow(d.arrays[k], Rows(d, s, k)[j]);
    }
  }

  lemma RowIsItem(d: Definition, t: State, k: nat, i: nat)
    requires Shaped(d, t) && Aligned(d, t) && k < |d.arrays| && i < |t.arrays[k].items|
    ensures HonestRow(d.arrays[k], Rows(d, t, k)[i])
       <==> HonestEdits(d.arrays[k].controls, t.arrays[k].items[i].edits, ValuesAt(t.data, d.arrays[k].binding)[i])
  {
    hide HonestEdits, ValuesAt;
  }

  /** An accepted transaction keeps every buffer honest exactly when the buffers it leaves still stand. */
  lemma HonestWhenBuffersStand(d: Definition, s: State, data: Json, writes: seq<Pointer>, changes: seq<HostChange>,
                          itemWrites: seq<ItemWrite>)
    requires Sound(d, s) && Honest(d, s) && HostTransaction(d, s, data, writes, changes, itemWrites).1.Ok?
    ensures Sound(d, HostTransaction(d, s, data, writes, changes, itemWrites).0)
    ensures Honest(d, HostTransaction(d, s, data, writes, changes, itemWrites).0)
       <==> BuffersStand(d, s, HostTransaction(d, s, data, writes, changes, itemWrites).0)
  {
    var t := HostTransaction(d, s, data, writes, changes, itemWrites).0;
    HostTransactionIsSound(d, s, data, writes, changes, itemWrites);
    SuccessUnfolds(d, s, data, writes, changes, itemWrites);
    ClearedEditsAreHonest(d.controls, s.edits, t.edits, s.data);
    StandingEditsAreHonest(d.controls, t.edits, s.data, t.data);
    forall k, i | 0 <= k < |d.arrays| && 0 <= i < |t.arrays[k].items|
      ensures HonestRow(d.arrays[k], Rows(d, t, k)[i]) <==>
              forall j | 0 <= j < |s.arrays[k].items| && t.arrays[k].items[i].identity == s.arrays[k].items[j].identity ::
                EditsStand(d.arrays[k].controls, t.arrays[k].items[i].edits, ValuesAt(s.data, d.arrays[k].binding)[j],
                           ValuesAt(t.data, d.arrays[k].binding)[i])
    {
      SoundItemsAreDistinct(d, s, k);
      ItemsFollowTheTopology(d, s, data, writes, changes, itemWrites, k);
      ItemHasAnOrigin(d.arrays[k], s.arrays[k].items, changes[k], s.nextIdentity, t.arrays[k].items, i);
      HonestFormHasHonestItems(d, s, k);
      RowIsItem(d, t, k, i);
      hide HostTransaction, FollowsChange, Survives, IsNew, EditsStand, HonestEdits, HonestItems, HonestRow;
      ItemHonestyIsStanding(d.arrays[k], s.arrays[k].items, ValuesAt(s.data, d.arrays[k].binding),
                            t.arrays[k].items[i], ValuesAt(t.data, d.arrays[k].binding)[i], s.nextIdentity);
    }
    hide HostTransaction, EditsStand, HonestRow, HonestEdits, ValuesAt, Rows;
  }

  lemma SoundItemsAreDistinct(d: Definition, s: State, k: nat)
    requires Sound(d, s) && k < |d.arrays|
    ensures DistinctItems(s.arrays[k].items, s.nextIdentity)
  {
    RowsAreDistinct(d, s, k);
    forall i | 0 <= i < |s.arrays[k].items| ensures Rows(d, s, k)[i].identity == s.arrays[k].items[i].identity {
    }
  }

  // ------------------------------------------------------------------------------- success

  predicate NamesLiveItem(arrays: seq<ArrayState>, write: ItemWrite) {
    write.list < |arrays| && ItemIndex(arrays[write.list].items, write.identity).Some?
  }

  lemma SameItemsAreLive(arrays: seq<ArrayState>, cleared: seq<ArrayState>, write: ItemWrite)
    requires OnlyCleared(arrays, cleared)
    ensures NamesLiveItem(arrays, write) <==> NamesLiveItem(cleared, write)
  {
    if write.list < |arrays| {
      var k := write.list;
      forall i | 0 <= i < |arrays[k].items| ensures arrays[k].items[i].identity == cleared[k].items[i].identity {
        SameIdentity(arrays[k].items[i], cleared[k].items[i]);
      }
      hide OnlyClearedItem;
      var i, j := ItemIndex(arrays[k].items, write.identity), ItemIndex(cleared[k].items, write.identity);
      if i.Some? {
        assert cleared[k].items[i.value].identity == write.identity;
      }
      if j.Some? {
        assert arrays[k].items[j.value].identity == write.identity;
      }
    }
  }

  lemma {:induction false} WritesAreLive(lists: seq<ArrayDefinition>, arrays: seq<ArrayState>, writes: seq<ItemWrite>)
    requires |lists| == |arrays| && AllShaped(lists, arrays)
    ensures ClearedByItemWrites(lists, arrays, writes).1 <==> forall w | 0 <= w < |writes| :: NamesLiveItem(arrays, writes[w])
  {
    if writes != [] {
      var front, last := writes[..|writes| - 1], writes[|writes| - 1];
      var before := ClearedByItemWrites(lists, arrays, front).0;
      WritesAreLive(lists, arrays, front);
      ItemWritesOnlyClear(lists, arrays, front);
      SameItemsAreLive(arrays, before, last);
      hide OnlyCleared, AllShaped;
      assert writes == front + [last];
    }
  }

  /** A transaction succeeds exactly when it is well formed and all its item writes name live items. */
  lemma WhenTransactionsSucceed(d: Definition, s: State, data: Json, writes: seq<Pointer>, changes: seq<HostChange>,
                                itemWrites: seq<ItemWrite>)
    requires Shaped(d, s)
    ensures HostTransaction(d, s, data, writes, changes, itemWrites).1.Ok? <==>
            && WellFormedTransaction(d, s, data, changes)
            && forall w | 0 <= w < |itemWrites| :: NamesLiveItem(s.arrays, itemWrites[w])
  {
    assert AllShaped(d.arrays, s.arrays);
    WritesAreLive(d.arrays, s.arrays, itemWrites);
    hide ClearedByItemWrites, WellFormedTransaction, Planned, JsonEqual, NamesLiveItem;
  }

  // ------------------------------------------------------------------------ replacing the data

  function ReplacementChange(list: ArrayDefinition, items: seq<Item>, current: Json, data: Json): HostChange {
    if OptionallyEqual(Resolve(current, list.binding), Resolve(data, list.binding)) then Preserve(AsIs(items)) else Replace
  }

  function ReplacementChanges(d: Definition, s: State, data: Json): (changes: seq<HostChange>)
    requires Shaped(d, s)
    ensures |changes| == |d.arrays|
    ensures forall k | 0 <= k < |d.arrays| ::
              changes[k] == ReplacementChange(d.arrays[k], s.arrays[k].items, s.data, data)
  {
    seq(|d.arrays|, k requires 0 <= k < |d.arrays| =>
      ReplacementChange(d.arrays[k], s.arrays[k].items, s.data, data))
  }

  /** `replace_form_data`. */
  function ReplaceFormData(d: Definition, s: State, data: Json): (State, Result<(), CreateFormError>)
    requires Shaped(d, s)
  {
    HostTransaction(d, s, data, [[]], ReplacementChanges(d, s, data), [])
  }

  lemma EqualPartsHaveEqualCounts(current: Json, data: Json, binding: Pointer)
    requires OptionallyEqual(Resolve(current, binding), Resolve(data, binding))
    ensures |ValuesAt(current, binding)| == |ValuesAt(data, binding)|
    ensures forall i | 0 <= i < |ValuesAt(current, binding)| ::
              JsonEqual(ValuesAt(current, binding)[i], ValuesAt(data, binding)[i])
  {
    var count := |ValuesAt(current, binding)|;
    forall i | 0 <= i < count && i < |ValuesAt(data, binding)|
      ensures JsonEqual(ValuesAt(current, binding)[i], ValuesAt(data, binding)[i])
    {
      EqualToItself(ValuesAt(current, binding)[i]);
    }
  }

  lemma LiveItemIsFound(items: seq<Item>, i: nat)
    requires i < |items|
    ensures ItemIndex(items, items[i].identity).Some?
  {
  }

  lemma KeptItemsFit(list: ArrayDefinition, items: seq<Item>, current: Json, data: Json, next: nat)
    requires DistinctItems(items, next) && |items| == |ValuesAt(current, list.binding)|
    ensures FitsArray(list, items, ReplacementChange(list, items, current, data), data)
  {
    if OptionallyEqual(Resolve(current, list.binding), Resolve(data, list.binding)) {
      EqualPartsHaveEqualCounts(current, data, list.binding);
      hide ValuesAt, Resolve, OptionallyEqual;
      forall i | 0 <= i < |items| ensures ItemIndex(items, AsIs(items)[i].identity).Some? {
        LiveItemIsFound(items, i);
      }
    }
  }

  /** New form data is accepted exactly when it is an object. */
  lemma ReplacementSucceeds(d: Definition, s: State, data: Json)
    requires Sound(d, s)
    ensures ReplaceFormData(d, s, data).1.Ok? <==> data.Object?
    ensures data.Object? ==> WellFormedTransaction(d, s, data, ReplacementChanges(d, s, data))
  {
    var changes := ReplacementChanges(d, s, data);
    forall k | 0 <= k < |d.arrays| ensures FitsArray(d.arrays[k], s.arrays[k].items, changes[k], data) {
      SoundItemsAreDistinct(d, s, k);
      KeptItemsFit(d.arrays[k], s.arrays[k].items, s.data, data, s.nextIdentity);
    }
    hide FitsArray, HostTransaction, ReplacementChange;
    WhenTransactionsSucceed(d, s, data, [[]], changes, []);
  }

  lemma RootHitsEverything(binding: Pointer)
    ensures Hits([[]], binding)
  {
    assert Overlap([[]][0], binding);
  }

  /** Replacing the data keeps every buffer that is left honest: only items of unchanged arrays keep theirs. */
  lemma ReplaceFormDataIsSound(d: Definition, s: State, data: Json)
    requires Sound(d, s)
    ensures Sound(d, ReplaceFormData(d, s, data).0)
    ensures Honest(d, s) ==> Honest(d, ReplaceFormData(d, s, data).0)
  {
    var changes := ReplacementChanges(d, s, data);
    HostTransactionIsSound(d, s, data, [[]], changes, []);
    ReplacementSucceeds(d, s, data);
    if Honest(d, s) {
      if data.Object? {
        ReplacedBuffersStand(d, s, data);
        HonestWhenBuffersStand(d, s, data, [[]], changes, []);
      } else {
        hide Honest;
        assert ReplaceFormData(d, s, data).0 == s;
      }
    }
  }

  lemma ReplacedBuffersStand(d: Definition, s: State, data: Json)
    requires Sound(d, s) && Honest(d, s) && data.Object? && ReplaceFormData(d, s, data).1.Ok?
    ensures Sound(d, ReplaceFormData(d, s, data).0) && BuffersStand(d, s, ReplaceFormData(d, s, data).0)
  {
    var t, changes := ReplaceFormData(d, s, data).0, ReplacementChanges(d, s, data);
    HostTransactionIsSound(d, s, data, [[]], changes, []);
    SuccessUnfolds(d, s, data, [[]], changes, []);
    forall c | 0 <= c < |d.controls|
      ensures StillStands(t.edits[c], Resolve(s.data, d.controls[c].binding), Resolve(t.data, d.controls[c].binding))
    {
      RootHitsEverything(d.controls[c].binding);
    }
    forall k, i, j | 0 <= k < |d.arrays| && 0 <= i < |t.arrays[k].items| && 0 <= j < |s.arrays[k].items|
                     && t.arrays[k].items[i].identity == s.arrays[k].items[j].identity
      ensures EditsStand(d.arrays[k].controls, t.arrays[k].items[i].edits, ValuesAt(s.data, d.arrays[k].binding)[j],
                         ValuesAt(t.data, d.arrays[k].binding)[i])
    {
      hide HostTransaction, EditsStand, FollowsChange, Survives;
      ItemsFollowTheTopology(d, s, data, [[]], changes, [], k);
      SoundItemsAreDistinct(d, s, k);
      KeptItemsStand(d, s, data, t, k, i, j);
    }
  }

  lemma KeptItemsStand(d: Definition, s: State, data: Json, t: State, k: nat, i: nat, j: nat)
    requires Shaped(d, s) && Aligned(d, s) && Shaped(d, t) && Aligned(d, t) && k < |d.arrays|
    requires t.data == if JsonEqual(s.data, data) then s.data else data
    requires i < |t.arrays[k].items| && j < |s.arrays[k].items| && DistinctItems(s.arrays[k].items, s.nextIdentity)
    requires t.arrays[k].items[i].identity == s.arrays[k].items[j].identity
    requires FollowsChange(d.arrays[k], s.arrays[k].items, ReplacementChange(d.arrays[k], s.arrays[k].items, s.data, data),
                           s.nextIdentity, t.arrays[k].items)
    ensures EditsStand(d.arrays[k].controls, t.arrays[k].items[i].edits, ValuesAt(s.data, d.arrays[k].binding)[j],
                       ValuesAt(t.data, d.arrays[k].binding)[i])
  {
    var binding := d.arrays[k].binding;
    assert i == j;
    if JsonEqual(s.data, data) {
      EqualToItself(ValuesAt(s.data, binding)[j]);
    } else {
      EqualPartsHaveEqualCounts(s.data, data, binding);
    }
    hide FollowsChange, ValuesAt, DistinctItems;
    forall c | 0 <= c < |d.arrays[k].controls|
      ensures OptionallyEqual(Resolve(ValuesAt(s.data, binding)[j], d.arrays[k].controls[c].binding),
                              Resolve(ValuesAt(t.data, binding)[i], d.arrays[k].controls[c].binding))
    {
      EqualValuesResolveAlike(ValuesAt(s.data, binding)[j], ValuesAt(t.data, binding)[i], d.arrays[k].controls[c].binding);
    }
  }
}
