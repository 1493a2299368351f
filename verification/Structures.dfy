/** Making new items for arrays whose data changed, and the operations that write whole structures. */
module Structures {
  import opened Bytes
  import opened Json
  import opened FormModel
  import opened DataWrites
  import opened ArrayOperations
  import opened ControlEdits

  // ------------------------------------------------------------------- rebuilding item lists

  /** An entry of a host's topology: an item to keep, or one to make. */
  datatype HostItem = Existing(identity: nat) | Fresh

  /** What becomes of the items of one array. */
  datatype Plan = Keep | Renew | Rearrange(topology: seq<HostItem>)

  /** The item with an identity; some item when there is none. */
  function ItemWith(list: ArrayDefinition, items: seq<Item>, identity: nat): Item {
    var i := ItemIndex(items, identity);
    if i.Some? then items[i.value] else NewItem(list, identity)
  }

  /** The items a topology asks for, in its order; new ones take the next identities. */
  function Arranged(list: ArrayDefinition, items: seq<Item>, topology: seq<HostItem>, next: nat): (seq<Item>, nat) {
    if topology == [] then ([], next)
    else
      var (before, n) := Arranged(list, items, topology[..|topology| - 1], next);
      match topology[|topology| - 1]
      case Existing(identity) => (before + [ItemWith(list, items, identity)], n)
      case Fresh => (before + [NewItem(list, n)], n + 1)
  }

  function PlannedItems(list: ArrayDefinition, items: seq<Item>, plan: Plan, data: Json, next: nat): (seq<Item>, nat) {
    match plan
    case Keep => (items, next)
    case Renew => (FreshItems(list, |ValuesAt(data, list.binding)|, next), next + |ValuesAt(data, list.binding)|)
    case Rearrange(topology) => Arranged(list, items, topology, next)
  }

  /** All arrays in turn, each drawing its new identities after the one before. */
  function Planned(lists: seq<ArrayDefinition>, arrays: seq<ArrayState>, plans: seq<Plan>, data: Json, next: nat)
    : (planned: (seq<ArrayState>, nat))
    requires |lists| == |arrays| == |plans|
    ensures |planned.0| == |arrays|
  {
    if arrays == [] then ([], next)
    else
      var last := |arrays| - 1;
      var (before, n) := Planned(lists[..last], arrays[..last], plans[..last], data, next);
      var (items, m) := PlannedItems(lists[last], arrays[last].items, plans[last], data, n);
      (before + [arrays[last].(items := items)], m)
  }

  /** A topology names existing items, none of them twice. */
  ghost predicate Nameable(items: seq<Item>, topology: seq<HostItem>) {
    && (forall i | 0 <= i < |topology| && topology[i].Existing? :: topology[i].identity in Ids(items))
    && forall i, j | 0 <= i < j < |topology| && topology[i].Existing? && topology[j].Existing? ::
         topology[i].identity != topology[j].identity
  }

  ghost predicate Feasible(items: seq<Item>, plan: Plan) {
    plan.Rearrange? ==> Nameable(items, plan.topology)
  }

  /** Item lists drawn from former items and new identities: what every plan yields. */
  ghost predicate Drawn(former: seq<Item>, items: seq<Item>, first: nat, next: nat, edits: nat) {
    && first <= next
    && (forall i | 0 <= i < |items| :: items[i].identity in Ids(former) || first <= items[i].identity < next)
    && (forall i, j | 0 <= i < j < |items| :: items[i].identity != items[j].identity)
    && forall i | 0 <= i < |items| :: |items[i].edits| == edits
  }

  ghost predicate ItemsShaped(items: seq<Item>, edits: nat) {
    forall i | 0 <= i < |items| :: |items[i].edits| == edits
  }

  ghost predicate DistinctItems(items: seq<Item>, next: nat) {
    && (forall i | 0 <= i < |items| :: items[i].identity < next)
    && forall i, j | 0 <= i < j < |items| :: items[i].identity != items[j].identity
  }

  lemma FoundItem(list: ArrayDefinition, items: seq<Item>, identity: nat)
    requires identity in Ids(items)
    ensures ItemWith(list, items, identity) in items && ItemWith(list, items, identity).identity == identity
  {
    var i :| 0 <= i < |items| && Ids(items)[i] == identity;
    assert items[i].identity == identity;
  }

  /** The identity at a place of the arrangement is the one the topology asks for, or a new one. */
  lemma {:induction false} ArrangedFollows(list: ArrayDefinition, items: seq<Item>, topology: seq<HostItem>, next: nat)
    requires forall i | 0 <= i < |topology| && topology[i].Existing? :: topology[i].identity in Ids(items)
    ensures var (arranged, n) := Arranged(list, items, topology, next);
            && |arranged| == |topology| && next <= n
            && (forall i | 0 <= i < |topology| && topology[i].Existing? ::
                  arranged[i] in items && arranged[i].identity == topology[i].identity)
            && (forall i | 0 <= i < |topology| && topology[i].Fresh? ::
                  next <= arranged[i].identity < n && arranged[i] == NewItem(list, arranged[i].identity))
            && forall i, j | 0 <= i < j < |topology| && topology[i].Fresh? && topology[j].Fresh? ::
                 arranged[i].identity < arranged[j].identity
  {
    if topology != [] {
      var last := |topology| - 1;
      ArrangedFollows(list, items, topology[..last], next);
      hide NewItem, ItemWith;
      var (before, n) := Arranged(list, items, topology[..last], next);
      assert forall i | 0 <= i < last :: topology[..last][i] == topology[i];
      if topology[last].Existing? {
        FoundItem(list, items, topology[last].identity);
      } else {
        NewItemHasIdentity(list, n);
      }
    }
  }

  lemma ArrangedAreDistinct(list: ArrayDefinition, items: seq<Item>, topology: seq<HostItem>, next: nat)
    requires Nameable(items, topology) && DistinctItems(items, next)
    ensures var arranged := Arranged(list, items, topology, next).0;
            && |arranged| == |topology|
            && forall i, j | 0 <= i < j < |arranged| :: arranged[i].identity != arranged[j].identity
  {
    ArrangedFollows(list, items, topology, next);
    hide Arranged;
  }

  lemma NewItemHasIdentity(list: ArrayDefinition, identity: nat)
    ensures NewItem(list, identity).identity == identity && |NewItem(list, identity).edits| == |list.controls|
  {
  }

  lemma PlannedItemsAreDrawn(list: ArrayDefinition, items: seq<Item>, plan: Plan, data: Json, next: nat)
    requires Feasible(items, plan) && DistinctItems(items, next) && ItemsShaped(items, |list.controls|)
    ensures var (planned, n) := PlannedItems(list, items, plan, data, next);
            Drawn(items, planned, next, n, |list.controls|)
  {
    match plan
    case Keep =>
      assert forall i | 0 <= i < |items| :: Ids(items)[i] == items[i].identity;
    case Renew =>
    case Rearrange(topology) =>
      ArrangedFollows(list, items, topology, next);
      ArrangedAreDistinct(list, items, topology, next);
      var (arranged, n) := Arranged(list, items, topology, next);
      forall i | 0 <= i < |arranged|
        ensures arranged[i].identity in Ids(items) || next <= arranged[i].identity < n
        ensures |arranged[i].edits| == |list.controls|
      {
        if topology[i].Existing? {
          var j :| 0 <= j < |items| && items[j] == arranged[i];
          assert Ids(items)[j] == arranged[i].identity;
        }
      }
  }

  ghost predicate AllFeasible(arrays: seq<ArrayState>, plans: seq<Plan>)
    requires |arrays| == |plans|
  {
    forall k | 0 <= k < |arrays| :: Feasible(arrays[k].items, plans[k])
  }

  ghost predicate AllShaped(lists: seq<ArrayDefinition>, arrays: seq<ArrayState>)
    requires |lists| == |arrays|
  {
    forall k | 0 <= k < |arrays| :: ItemsShaped(arrays[k].items, |lists[k].controls|)
  }

  ghost predicate DrawnList(former: ArrayState, now: ArrayState, next: nat, n: nat) {
    && now.touched == former.touched
    && forall i | 0 <= i < |now.items| :: now.items[i].identity in Ids(former.items) || next <= now.items[i].identity < n
  }

  ghost predicate DrawnLists(lists: seq<ArrayDefinition>, arrays: seq<ArrayState>, planned: seq<ArrayState>, next: nat,
                             n: nat) {
    && |planned| == |arrays| == |lists| && next <= n && AllShaped(lists, planned) && DistinctBelow(LiveIds(planned), n)
    && forall k | 0 <= k < |arrays| :: DrawnList(arrays[k], planned[k], next, n)
  }

  /** Every planned list is drawn from the list it replaces and from identities not handed out before. */
  lemma {:induction false} PlannedFollows(lists: seq<ArrayDefinition>, arrays: seq<ArrayState>, plans: seq<Plan>,
                                          data: Json, next: nat)
    requires |lists| == |arrays| == |plans| && AllFeasible(arrays, plans) && AllShaped(lists, arrays)
    requires DistinctBelow(LiveIds(arrays), next)
    ensures var (planned, n) := Planned(lists, arrays, plans, data, next);
            DrawnLists(lists, arrays, planned, next, n)
  {
    if arrays != [] {
      var last := |arrays| - 1;
      FrontIds(arrays, next);
      PlannedFollows(lists[..last], arrays[..last], plans[..last], data, next);
      var (before, n) := Planned(lists[..last], arrays[..last], plans[..last], data, next);
      LastIds(arrays, next);
      LaterItemsStayDistinct(arrays[last].items, next, n);
      assert Feasible(arrays[last].items, plans[last]) && ItemsShaped(arrays[last].items, |lists[last].controls|);
      hide Planned, PlannedItems, DistinctBelow, Feasible, ItemsShaped, DrawnLists, AllFeasible, AllShaped, Drawn;
      PlannedItemsAreDrawn(lists[last], arrays[last].items, plans[last], data, n);
      var (items, m) := PlannedItems(lists[last], arrays[last].items, plans[last], data, n);
      DrawnListsGrow(lists, arrays, before, items, next, n, m);
      PlannedUnfolds(lists, arrays, plans, data, next);
    }
  }

  lemma DrawnListsGrow(lists: seq<ArrayDefinition>, arrays: seq<ArrayState>, before: seq<ArrayState>, items: seq<Item>,
                       next: nat, n: nat, m: nat)
    requires arrays != [] && |arrays| == |lists| && DistinctBelow(LiveIds(arrays), next)
    requires DrawnLists(lists[..|arrays| - 1], arrays[..|arrays| - 1], before, next, n)
    requires Drawn(arrays[|arrays| - 1].items, items, n, m, |lists[|arrays| - 1].controls|)
    ensures DrawnLists(lists, arrays, before + [arrays[|arrays| - 1].(items := items)], next, m)
  {
    var last := |arrays| - 1;
    var all := before + [arrays[last].(items := items)];
    forall k | 0 <= k < last ensures DrawnList(arrays[k], all[k], next, m) && ItemsShaped(all[k].items, |lists[k].controls|) {
      assert DrawnList(arrays[..last][k], before[k], next, n);
      assert ItemsShaped(before[k].items, |lists[..last][k].controls|);
    }
    assert DrawnList(arrays[last], all[last], next, m);
    forall k, i | 0 <= k < |before| && 0 <= i < |before[k].items|
      ensures before[k].items[i].identity in Ids(arrays[k].items) || next <= before[k].items[i].identity < n
    {
      assert DrawnList(arrays[..last][k], before[k], next, n);
    }
    AppendedIds(arrays, before, arrays[last].(items := items), next, n, m, |lists[last].controls|);
  }

  lemma PlannedUnfolds(lists: seq<ArrayDefinition>, arrays: seq<ArrayState>, plans: seq<Plan>, data: Json, next: nat)
    requires |lists| == |arrays| == |plans| && arrays != []
    ensures var last := |arrays| - 1;
            var (before, n) := Planned(lists[..last], arrays[..last], plans[..last], data, next);
            var (items, m) := PlannedItems(lists[last], arrays[last].items, plans[last], data, n);
            Planned(lists, arrays, plans, data, next) == (before + [arrays[last].(items := items)], m)
  {
  }

  lemma FrontIds(arrays: seq<ArrayState>, next: nat)
    requires arrays != [] && DistinctBelow(LiveIds(arrays), next)
    ensures DistinctBelow(LiveIds(arrays[..|arrays| - 1]), next)
  {
    assert forall k | 0 <= k < |arrays| - 1 :: LiveIds(arrays[..|arrays| - 1])[k] == LiveIds(arrays)[k];
  }

  lemma LastIds(arrays: seq<ArrayState>, next: nat)
    requires arrays != [] && DistinctBelow(LiveIds(arrays), next)
    ensures DistinctItems(arrays[|arrays| - 1].items, next)
  {
    var ids, last := LiveIds(arrays), |arrays| - 1;
    forall i | 0 <= i < |arrays[last].items| ensures arrays[last].items[i].identity < next {
      assert ids[last][i] < next;
    }
    forall i, j | 0 <= i < j < |arrays[last].items| ensures arrays[last].items[i].identity != arrays[last].items[j].identity {
      assert ids[last][i] != ids[last][j];
    }
  }

  lemma LaterItemsStayDistinct(items: seq<Item>, next: nat, later: nat)
    requires DistinctItems(items, next) && next <= later
    ensures DistinctItems(items, later)
  {
  }

  /** One more list, with identities of its own, keeps all identities distinct. */
  lemma AppendedIds(arrays: seq<ArrayState>, before: seq<ArrayState>, last: ArrayState, next: nat, n: nat, m: nat, edits: nat)
    requires arrays != [] && |before| == |arrays| - 1 && next <= n
    requires DistinctBelow(LiveIds(arrays), next) && DistinctBelow(LiveIds(before), n)
    requires forall k, i | 0 <= k < |before| && 0 <= i < |before[k].items| ::
               before[k].items[i].identity in Ids(arrays[k].items) || next <= before[k].items[i].identity < n
    requires Drawn(arrays[|arrays| - 1].items, last.items, n, m, edits)
    ensures DistinctBelow(LiveIds(before + [last]), m)
  {
    var ids, all := LiveIds(arrays), LiveIds(before + [last]);
    var top := |before|;
    assert forall k | 0 <= k < top :: all[k] == LiveIds(before)[k];
    assert all[top] == Ids(last.items);
    forall k, i, j | 0 <= k < top && 0 <= i < |all[k]| && 0 <= j < |all[top]| ensures all[k][i] != all[top][j] {
      assert all[k][i] == before[k].items[i].identity && all[top][j] == last.items[j].identity;
      assert LiveIds(before)[k][i] < n;
      if last.items[j].identity in Ids(arrays[top].items) {
        var a :| 0 <= a < |ids[top]| && ids[top][a] == last.items[j].identity;
        if before[k].items[i].identity in Ids(arrays[k].items) {
          var b :| 0 <= b < |ids[k]| && ids[k][b] == before[k].items[i].identity;
        }
      }
    }
  }

  lemma {:induction false} ArrangedGrows(list: ArrayDefinition, items: seq<Item>, topology: seq<HostItem>, next: nat)
    ensures next <= Arranged(list, items, topology, next).1
  {
    if topology != [] {
      ArrangedGrows(list, items, topology[..|topology| - 1], next);
    }
  }

  lemma {:induction false} PlannedGrows(lists: seq<ArrayDefinition>, arrays: seq<ArrayState>, plans: seq<Plan>, data: Json,
                                        next: nat)
    requires |lists| == |arrays| == |plans|
    ensures next <= Planned(lists, arrays, plans, data, next).1
  {
    if arrays != [] {
      var last := |arrays| - 1;
      PlannedGrows(lists[..last], arrays[..last], plans[..last], data, next);
      var n := Planned(lists[..last], arrays[..last], plans[..last], data, next).1;
      if plans[last].Rearrange? {
        ArrangedGrows(lists[last], arrays[last].items, plans[last].topology, n);
      }
      hide ValuesAt, Arranged;
    }
  }

  lemma {:induction false} PlannedAt(lists: seq<ArrayDefinition>, arrays: seq<ArrayState>, plans: seq<Plan>, data: Json,
                                     next: nat, k: nat) returns (n: nat)
    requires |lists| == |arrays| == |plans| && k < |arrays|
    ensures Planned(lists, arrays, plans, data, next).0[k]
         == arrays[k].(items := PlannedItems(lists[k], arrays[k].items, plans[k], data, n).0)
    ensures next <= n
    decreases |arrays|
  {
    var last := |arrays| - 1;
    PlannedGrows(lists[..last], arrays[..last], plans[..last], data, next);
    hide PlannedItems;
    if k == last {
      n := Planned(lists[..last], arrays[..last], plans[..last], data, next).1;
    } else {
      n := PlannedAt(lists[..last], arrays[..last], plans[..last], data, next, k);
    }
  }

  // ------------------------------------------------------- buffers after a structure is written

  /** A buffer that a write at the pointer cannot make dishonest: there is none, or it sits elsewhere. */
  ghost predicate Unhindered(now: EditState, former: EditState, p: Pointer, at: Pointer) {
    now.buffer.None? || (now == former && (now.blocker.None? ==> !(at <= p)))
  }

  ghost predicate UnhinderedEdits(controls: seq<ControlDefinition>, now: seq<EditState>, former: seq<EditState>,
                                  base: Pointer, at: Pointer) {
    && |now| == |former| == |controls|
    && forall c | 0 <= c < |controls| :: Unhindered(now[c], former[c], base + controls[c].binding, at)
  }

  ghost predicate NoBuffers(items: seq<Item>) {
    forall i, c | 0 <= i < |items| && 0 <= c < |items[i].edits| :: items[i].edits[c].buffer.None?
  }

  /** The items of an array after a write: without buffers, or in place with their buffers undisturbed. */
  ghost predicate UnhinderedItems(list: ArrayDefinition, now: seq<Item>, former: seq<Item>, at: Pointer) {
    || NoBuffers(now)
    || (&& !(at <= list.binding) && |now| == |former|
        && forall i | 0 <= i < |now| ::
             UnhinderedEdits(list.controls, now[i].edits, former[i].edits, ItemPointer(list.binding, i), at))
  }

  lemma UnhinderedStayHonest(data: Json, at: Pointer, data': Json, controls: seq<ControlDefinition>,
                             now: seq<EditState>, former: seq<EditState>)
    requires Rewrites(data, at, data') && UnhinderedEdits(controls, now, former, [], at)
    requires HonestEdits(controls, former, data)
    ensures HonestEdits(controls, now, data')
  {
    hide Rewrites, Resolve;
    forall c | 0 <= c < |controls| ensures HonestEdit(controls[c], now[c], Resolve(data', controls[c].binding)) {
      assert [] + controls[c].binding == controls[c].binding;
      if now[c].buffer.Some? {
        assert HonestEdit(controls[c], now[c], Resolve(data, controls[c].binding));
        WritesElsewhereStayHonest(data, at, data', controls[c], now[c], controls[c].binding);
      }
    }
  }

  lemma UnhinderedRowStaysHonest(data: Json, at: Pointer, data': Json, list: ArrayDefinition, i: nat,
                                 now: seq<EditState>, former: seq<EditState>)
    requires Rewrites(data, at, data')
    requires UnhinderedEdits(list.controls, now, former, ItemPointer(list.binding, i), at)
    requires i < |ValuesAt(data, list.binding)| && i < |ValuesAt(data', list.binding)|
    requires HonestEdits(list.controls, former, ValuesAt(data, list.binding)[i])
    ensures HonestEdits(list.controls, now, ValuesAt(data', list.binding)[i])
  {
    hide Rewrites, ValuesAt, ItemPointer;
    forall c | 0 <= c < |list.controls|
      ensures HonestEdit(list.controls[c], now[c], Resolve(ValuesAt(data', list.binding)[i], list.controls[c].binding))
    {
      var relative := list.controls[c].binding;
      if now[c].buffer.Some? {
        ItemControlsResolveInItems(data, list.binding, i, relative);
        ItemControlsResolveInItems(data', list.binding, i, relative);
        assert HonestEdit(list.controls[c], now[c], Resolve(ValuesAt(data, list.binding)[i], relative));
        hide HonestEdit;
        WritesElsewhereStayHonest(data, at, data', list.controls[c], now[c], ItemPointer(list.binding, i) + relative);
      }
    }
  }

  /** After a write at a pointer, honesty only asks that nothing hinders it. */
  lemma RestructuringStaysHonest(d: Definition, s: State, at: Pointer, t: State)
    requires Shaped(d, s) && Aligned(d, s) && Honest(d, s) && Shaped(d, t) && Aligned(d, t)
    requires Rewrites(s.data, at, t.data) && UnhinderedEdits(d.controls, t.edits, s.edits, [], at)
    requires forall k | 0 <= k < |d.arrays| ::
               UnhinderedItems(d.arrays[k], t.arrays[k].items, s.arrays[k].items, at)
    ensures Honest(d, t)
  {
    hide Rewrites, ValuesAt, ItemPointer, UnhinderedEdits;
    UnhinderedStayHonest(s.data, at, t.data, d.controls, t.edits, s.edits);
    forall k, i | 0 <= k < |d.arrays| && 0 <= i < |t.arrays[k].items|
      ensures HonestRow(d.arrays[k], Rows(d, t, k)[i])
    {
      assert UnhinderedItems(d.arrays[k], t.arrays[k].items, s.arrays[k].items, at);
      if NoBuffers(t.arrays[k].items) {
        hide Resolve;
      } else {
        assert HonestRow(d.arrays[k], Rows(d, s, k)[i]);
        hide HonestEdits;
        UnhinderedRowStaysHonest(s.data, at, t.data, d.arrays[k], i, t.arrays[k].items[i].edits, s.arrays[k].items[i].edits);
      }
    }
  }

  // -------------------------------------------------------------- reconciling arrays with a write

  function BelowPlans(d: Definition, at: Pointer): (plans: seq<Plan>)
    ensures |plans| == |d.arrays|
    ensures forall k | 0 <= k < |plans| :: plans[k] == if at <= d.arrays[k].binding then Renew else Keep
  {
    seq(|d.arrays|, k requires 0 <= k < |d.arrays| => if at <= d.arrays[k].binding then Renew else Keep)
  }

  /** New data, with new items in every array that may have been written. */
  function Restructured(d: Definition, s: State, at: Pointer, data: Json): State
    requires Shaped(d, s)
  {
    var (arrays, next) := Planned(d.arrays, s.arrays, BelowPlans(d, at), data, s.nextIdentity);
    s.(data := data, arrays := arrays, nextIdentity := next)
  }

  lemma RestructuredArray(d: Definition, s: State, at: Pointer, data: Json, k: nat)
    requires Shaped(d, s) && k < |d.arrays|
    ensures var t := Restructured(d, s, at, data);
            && |t.arrays| == |s.arrays| && t.arrays[k].touched == s.arrays[k].touched
            && (!(at <= d.arrays[k].binding) ==> t.arrays[k] == s.arrays[k])
            && (at <= d.arrays[k].binding ==>
                  && |t.arrays[k].items| == |ValuesAt(data, d.arrays[k].binding)| && NoBuffers(t.arrays[k].items))
  {
    var n := PlannedAt(d.arrays, s.arrays, BelowPlans(d, at), data, s.nextIdentity, k);
    hide Planned, ValuesAt;
  }

  lemma RestructuredIsAligned(d: Definition, s: State, at: Pointer, data: Json)
    requires Shaped(d, s) && Aligned(d, s) && Identified(s) && Rewrites(s.data, at, data)
    ensures var t := Restructured(d, s, at, data); Shaped(d, t) && Aligned(d, t) && Identified(t)
  {
    var t := Restructured(d, s, at, data);
    assert AllFeasible(s.arrays, BelowPlans(d, at));
    assert AllShaped(d.arrays, s.arrays);
    PlannedFollows(d.arrays, s.arrays, BelowPlans(d, at), data, s.nextIdentity);
    LaterIdsStayDistinct(s.baselineIds, s.nextIdentity, t.nextIdentity);
    hide Planned, ValuesAt, Rewrites, LiveIds, DistinctBelow;
    forall k | 0 <= k < |d.arrays|
      ensures |t.arrays[k].items| == |ValuesAt(data, d.arrays[k].binding)|
      ensures ItemsShaped(t.arrays[k].items, |d.arrays[k].controls|)
    {
      RestructuredArray(d, s, at, data, k);
      if !(at <= d.arrays[k].binding) {
        WritesKeepCounts(s.data, at, data, d.arrays[k].binding);
      }
    }
  }

  function ClearedEdits(controls: seq<ControlDefinition>, edits: seq<EditState>, base: Pointer, at: Pointer)
    : (cleared: seq<EditState>)
    requires |edits| == |controls|
    ensures |cleared| == |edits|
    ensures forall c | 0 <= c < |edits| ::
              cleared[c] == if at <= base + controls[c].binding then Cleared(edits[c]) else edits[c]
  {
    seq(|edits|, c requires 0 <= c < |edits| => if at <= base + controls[c].binding then Cleared(edits[c]) else edits[c])
  }

  function ClearedItems(list: ArrayDefinition, items: seq<Item>, at: Pointer): (cleared: seq<Item>)
    requires ItemsShaped(items, |list.controls|)
    ensures |cleared| == |items|
    ensures forall i | 0 <= i < |items| ::
              cleared[i] == items[i].(edits := ClearedEdits(list.controls, items[i].edits, ItemPointer(list.binding, i), at))
  {
    seq(|items|, i requires 0 <= i < |items| =>
      items[i].(edits := ClearedEdits(list.controls, items[i].edits, ItemPointer(list.binding, i), at)))
  }

  /** Clears the edit state of every control at or below a pointer. */
  function ClearedBelow(d: Definition, s: State, at: Pointer): (t: State)
    requires Shaped(d, s)
    ensures Shaped(d, t) && t.data == s.data
  {
    assert AllShaped(d.arrays, s.arrays);
    s.(edits := ClearedEdits(d.controls, s.edits, [], at),
       arrays := seq(|s.arrays|, k requires 0 <= k < |s.arrays| =>
         s.arrays[k].(items := ClearedItems(d.arrays[k], s.arrays[k].items, at))))
  }

  lemma ClearedIsAligned(d: Definition, s: State, at: Pointer)
    requires Shaped(d, s)
    ensures Aligned(d, s) ==> Aligned(d, ClearedBelow(d, s, at))
    ensures LiveIds(ClearedBelow(d, s, at).arrays) == LiveIds(s.arrays)
    ensures Identified(s) ==> Identified(ClearedBelow(d, s, at))
  {
    var t := ClearedBelow(d, s, at);
    forall k | 0 <= k < |s.arrays| ensures Ids(t.arrays[k].items) == Ids(s.arrays[k].items) {
    }
  }

  // --------------------------------------------------------- materialize, replace and remove

  /** `materialize_structure`. */
  function Materialize(d: Definition, s: State, at: Pointer, seed: Json): (State, Result<(), EditError>)
    requires Shaped(d, s)
  {
    if Resolve(s.data, at).Some? || IsScalar(seed) then (s, Err(OperationNotAllowed))
    else
      var data := SetBound(s.data, at, seed);
      if data.None? then (s, Err(UnresolvedControl)) else (DataChanged(Restructured(d, s, at, data.value)), Ok(()))
  }

  predicate BindsMultipleChoice(d: Definition, at: Pointer) {
    exists k | 0 <= k < |d.arrays| :: d.arrays[k].binding == at && d.arrays[k].IsMultipleChoice()
  }

  predicate MayReplaceStructure(d: Definition, s: State, at: Pointer, value: Json) {
    var current := Resolve(s.data, at);
    && current.Some?
    && ((value.Object? && !current.value.Object?)
        || (value.Array? && (!current.value.Array? || BindsMultipleChoice(d, at))))
  }

  /** `replace_structure`. */
  function ReplaceStructure(d: Definition, s: State, at: Pointer, value: Json): (State, Result<(), EditError>)
    requires Shaped(d, s)
  {
    if !MayReplaceStructure(d, s, at, value) then (s, Err(OperationNotAllowed))
    else
      var data := SetBound(s.data, at, value);
      if data.None? then (s, Err(UnresolvedControl))
      else (DataChanged(ClearedBelow(d, ShapedRestructured(d, s, at, data.value), at)), Ok(()))
  }

  /** `remove_value`. */
  function RemoveValue(d: Definition, s: State, at: Pointer): (State, Result<(), EditError>)
    requires Shaped(d, s)
  {
    var data := TakeBound(s.data, at);
    if data.None? then (s, Err(UnresolvedControl))
    else (DataChanged(ClearedBelow(d, ShapedRestructured(d, s, at, data.value), at)), Ok(()))
  }

  function ShapedRestructured(d: Definition, s: State, at: Pointer, data: Json): (t: State)
    requires Shaped(d, s)
    ensures Shaped(d, t) && t == Restructured(d, s, at, data)
  {
    RestructuredIsShaped(d, s, at, data);
    Restructured(d, s, at, data)
  }

  lemma RestructuredIsShaped(d: Definition, s: State, at: Pointer, data: Json)
    requires Shaped(d, s)
    ensures Shaped(d, Restructured(d, s, at, data))
  {
    var t := Restructured(d, s, at, data);
    hide Planned, ValuesAt;
    forall k, i | 0 <= k < |d.arrays| && 0 <= i < |t.arrays[k].items|
      ensures |t.arrays[k].items[i].edits| == |d.arrays[k].controls|
    {
      RestructuredArray(d, s, at, data, k);
      if at <= d.arrays[k].binding {
        var n := PlannedAt(d.arrays, s.arrays, BelowPlans(d, at), data, s.nextIdentity, k);
      }
    }
  }

  /** Below an absent place there is no honest buffer to disturb. */
  lemma AbsentIsUnhindered(d: Definition, s: State, at: Pointer)
    requires Shaped(d, s) && Aligned(d, s) && Honest(d, s) && Resolve(s.data, at).None?
    ensures UnhinderedEdits(d.controls, s.edits, s.edits, [], at)
    ensures forall k, i | 0 <= k < |d.arrays| && 0 <= i < |s.arrays[k].items| ::
              UnhinderedEdits(d.arrays[k].controls, s.arrays[k].items[i].edits, s.arrays[k].items[i].edits,
                              ItemPointer(d.arrays[k].binding, i), at)
  {
    forall c | 0 <= c < |d.controls| ensures Unhindered(s.edits[c], s.edits[c], [] + d.controls[c].binding, at) {
      assert [] + d.controls[c].binding == d.controls[c].binding;
      AbsentBelow(s.data, at, d.controls[c].binding);
    }
    forall k, i, c | 0 <= k < |d.arrays| && 0 <= i < |s.arrays[k].items| && 0 <= c < |d.arrays[k].controls|
      ensures Unhindered(s.arrays[k].items[i].edits[c], s.arrays[k].items[i].edits[c],
                         ItemPointer(d.arrays[k].binding, i) + d.arrays[k].controls[c].binding, at)
    {
      HonestPlace(d, s, InItem(k, i, c));
      AbsentBelow(s.data, at, ItemPointer(d.arrays[k].binding, i) + d.arrays[k].controls[c].binding);
    }
  }

  lemma AbsentBelow(data: Json, at: Pointer, p: Pointer)
    requires Resolve(data, at).None?
    ensures at <= p ==> Resolve(data, p).None?
  {
    if at <= p {
      ResolveThrough(data, at, p[|at|..]);
      assert p == at + p[|at|..];
    }
  }

  lemma RestructuredIsHonest(d: Definition, s: State, at: Pointer, data: Json, t: State)
    requires Shaped(d, s) && Aligned(d, s) && Identified(s) && Honest(d, s) && Rewrites(s.data, at, data)
    requires t == Restructured(d, s, at, data)
    requires UnhinderedEdits(d.controls, s.edits, s.edits, [], at)
    requires forall k, i | 0 <= k < |d.arrays| && 0 <= i < |s.arrays[k].items| ::
               UnhinderedEdits(d.arrays[k].controls, s.arrays[k].items[i].edits, s.arrays[k].items[i].edits,
                               ItemPointer(d.arrays[k].binding, i), at)
    ensures Shaped(d, t) && Aligned(d, t) && Honest(d, t)
  {
    RestructuredIsAligned(d, s, at, data);
    assert t.data == data && t.edits == s.edits;
    hide Restructured, Rewrites, UnhinderedEdits, HonestEdits;
    forall k | 0 <= k < |d.arrays| ensures UnhinderedItems(d.arrays[k], t.arrays[k].items, s.arrays[k].items, at) {
      RestructuredArray(d, s, at, data, k);
    }
    RestructuringStaysHonest(d, s, at, t);
  }

  lemma MaterializeIsSound(d: Definition, s: State, at: Pointer, seed: Json)
    requires Sound(d, s)
    ensures Sound(d, Materialize(d, s, at, seed).0)
    ensures Honest(d, s) ==> Honest(d, Materialize(d, s, at, seed).0)
  {
    if Materialize(d, s, at, seed).1.Ok? {
      var data := SetBound(s.data, at, seed).value;
      var t := Restructured(d, s, at, data);
      assert Rewrites(s.data, at, data);
      RestructuredIsAligned(d, s, at, data);
      ChangedIsSound(d, s, t);
      if Honest(d, s) {
        AbsentIsUnhindered(d, s, at);
        RestructuredIsHonest(d, s, at, data, t);
        ChangedIsHonest(d, t);
      }
      hide Honest, Restructured, Rewrites, Sound, UnhinderedEdits;
    }
  }

  lemma ClearedAreUnhindered(controls: seq<ControlDefinition>, edits: seq<EditState>, base: Pointer, at: Pointer)
    requires |edits| == |controls|
    ensures UnhinderedEdits(controls, ClearedEdits(controls, edits, base, at), edits, base, at)
  {
  }

  lemma ClearedRestructuredIsSound(d: Definition, s: State, at: Pointer, data: Json)
    requires Sound(d, s) && Rewrites(s.data, at, data)
    ensures var t := ClearedBelow(d, ShapedRestructured(d, s, at, data), at);
            Sound(d, DataChanged(t)) && (Honest(d, s) ==> Honest(d, DataChanged(t)))
  {
    var r := ShapedRestructured(d, s, at, data);
    var t := ClearedBelow(d, r, at);
    RestructuredIsAligned(d, s, at, data);
    ClearedIsAligned(d, r, at);
    ChangedIsSound(d, s, t);
    assert r.edits == s.edits && r.data == data;
    hide Rewrites, HonestEdits, Identified, UnhinderedEdits, Restructured;
    if Honest(d, s) {
      ClearedAreUnhindered(d.controls, s.edits, [], at);
      forall k | 0 <= k < |d.arrays| ensures UnhinderedItems(d.arrays[k], t.arrays[k].items, s.arrays[k].items, at) {
        RestructuredArray(d, s, at, data, k);
        ClearedItemsAreUnhindered(d.arrays[k], r.arrays[k].items, s.arrays[k].items, at);
      }
      RestructuringStaysHonest(d, s, at, t);
      ChangedIsHonest(d, t);
    }
  }

  lemma ClearedItemsAreUnhindered(list: ArrayDefinition, items: seq<Item>, former: seq<Item>, at: Pointer)
    requires ItemsShaped(items, |list.controls|)
    requires NoBuffers(items) || (items == former && !(at <= list.binding))
    ensures UnhinderedItems(list, ClearedItems(list, items, at), former, at)
  {
    hide UnhinderedEdits;
    if !NoBuffers(items) {
      forall i | 0 <= i < |items|
        ensures UnhinderedEdits(list.controls, ClearedItems(list, items, at)[i].edits, former[i].edits,
                                ItemPointer(list.binding, i), at)
      {
        ClearedAreUnhindered(list.controls, items[i].edits, ItemPointer(list.binding, i), at);
      }
    }
  }

  lemma ReplaceStructureIsSound(d: Definition, s: State, at: Pointer, value: Json)
    requires Sound(d, s)
    ensures Sound(d, ReplaceStructure(d, s, at, value).0)
    ensures Honest(d, s) ==> Honest(d, ReplaceStructure(d, s, at, value).0)
  {
    if ReplaceStructure(d, s, at, value).1.Ok? {
      var data := SetBound(s.data, at, value).value;
      assert Rewrites(s.data, at, data);
      ClearedRestructuredIsSound(d, s, at, data);
      hide Honest, Restructured, Rewrites, Sound;
    }
  }

  lemma RemoveValueIsSound(d: Definition, s: State, at: Pointer)
    requires Sound(d, s)
    ensures Sound(d, RemoveValue(d, s, at).0)
    ensures Honest(d, s) ==> Honest(d, RemoveValue(d, s, at).0)
  {
    if RemoveValue(d, s, at).1.Ok? {
      var data := TakeBound(s.data, at).value;
      assert Rewrites(s.data, at, data);
      ClearedRestructuredIsSound(d, s, at, data);
      hide Honest, Restructured, Rewrites, Sound;
    }
  }

  /** Form data stays an object, unless an array is put in its place as a whole. */
  lemma WhenDataStaysAnObject(d: Definition, s: State, at: Pointer, value: Json)
    requires Shaped(d, s) && s.data.Object?
    ensures ReplaceStructure(d, s, at, value).0.data.Object? <==> !(at == [] && value.Array?)
    ensures Materialize(d, s, at, value).0.data.Object? && RemoveValue(d, s, at).0.data.Object?
  {
    if at != [] {
      StaysAnObject(s.data, at, value);
    }
    hide Planned;
  }

  lemma StaysAnObject(data: Json, at: Pointer, value: Json)
    requires data.Object? && at != []
    ensures SetBound(data, at, value).Some? ==> SetBound(data, at, value).value.Object?
    ensures TakeBound(data, at).Some? ==> TakeBound(data, at).value.Object?
  {
  }
}
