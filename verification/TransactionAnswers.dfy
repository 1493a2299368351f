/** When a transaction of the host is accepted, and the whole form it leaves. */
module TransactionAnswers {
  import opened Bytes
  import opened Json
  import opened FormModel
  import opened ArrayOperations
  import opened Structures
  import opened HostTransactions
  import opened TransactionEffects
  import opened RowAnswers
  import opened StructureAnswers

  // --------------------------------------------------------------------------- acceptance

  ghost predicate HasItem(items: seq<Item>, identity: nat) {
    exists j :: 0 <= j < |items| && items[j].identity == identity
  }

  /** A topology has an entry for each element, and names items of the array, each at most once. */
  ghost predicate Arranges(items: seq<Item>, topology: seq<HostItem>, count: nat) {
    && |topology| == count
    && (forall i | 0 <= i < |topology| && topology[i].Existing? :: HasItem(items, topology[i].identity))
    && forall i, j | 0 <= i < |topology| && 0 <= j < |topology| && i != j && topology[i].Existing? :: topology[i] != topology[j]
  }

  ghost predicate IsWellFormed(d: Definition, s: State, data: Json, changes: seq<HostChange>)
    requires Shaped(d, s)
  {
    && data.Object? && |changes| == |d.arrays|
    && forall k | 0 <= k < |d.arrays| && changes[k].Preserve? ::
         Arranges(s.arrays[k].items, changes[k].topology,
                  match PresentElements(data, d.arrays[k].binding) case Some(elements) => |elements| case None => 0)
  }

  lemma LiveMeansItem(items: seq<Item>, identity: nat)
    ensures ItemIndex(items, identity).Some? <==> HasItem(items, identity)
  {
  }

  lemma FittingIsArranging(list: ArrayDefinition, items: seq<Item>, change: HostChange, data: Json)
    requires change.Preserve?
    ensures FitsArray(list, items, change, data)
       <==> Arranges(items, change.topology,
                     match PresentElements(data, list.binding) case Some(elements) => |elements| case None => 0)
  {
    PresentElementsAreValues(data, list.binding);
    forall i | 0 <= i < |change.topology| && change.topology[i].Existing?
      ensures ItemIndex(items, change.topology[i].identity).Some? <==> HasItem(items, change.topology[i].identity)
    {
      LiveMeansItem(items, change.topology[i].identity);
    }
    hide ItemIndex, HasItem, Resolve;
  }

  /** Accepted are exactly the transactions whose data is an object, whose topologies arrange items over the new elements,
  and whose item writes name items. */
  lemma WhenTransactionsAreAccepted(d: Definition, s: State, data: Json, writes: seq<Pointer>, changes: seq<HostChange>,
                                    itemWrites: seq<ItemWrite>)
    requires Shaped(d, s)
    ensures WellFormedTransaction(d, s, data, changes) <==> IsWellFormed(d, s, data, changes)
    ensures HostTransaction(d, s, data, writes, changes, itemWrites).1.Ok? <==>
            && IsWellFormed(d, s, data, changes)
            && forall w | 0 <= w < |itemWrites| ::
                 itemWrites[w].list < |d.arrays| && HasItem(s.arrays[itemWrites[w].list].items, itemWrites[w].identity)
  {
    WhenTransactionsSucceed(d, s, data, writes, changes, itemWrites);
    hide HostTransaction, FitsArray, Arranges, HasItem, ItemIndex, PresentElements;
    forall k | 0 <= k < |d.arrays| && k < |changes| && changes[k].Preserve?
      ensures FitsArray(d.arrays[k], s.arrays[k].items, changes[k], data)
         <==> Arranges(s.arrays[k].items, changes[k].topology,
                       match PresentElements(data, d.arrays[k].binding) case Some(elements) => |elements| case None => 0)
    {
      FittingIsArranging(d.arrays[k], s.arrays[k].items, changes[k], data);
    }
    forall k | 0 <= k < |d.arrays| && k < |changes| && changes[k].Replace?
      ensures FitsArray(d.arrays[k], s.arrays[k].items, changes[k], data)
    {
      ReplacingFits(d.arrays[k], s.arrays[k].items, data);
    }
    forall w | 0 <= w < |itemWrites| && itemWrites[w].list < |d.arrays|
      ensures NamesLiveItem(s.arrays, itemWrites[w])
         <==> HasItem(s.arrays[itemWrites[w].list].items, itemWrites[w].identity)
    {
      LiveMeansItem(s.arrays[itemWrites[w].list].items, itemWrites[w].identity);
    }
  }

  lemma ReplacingFits(list: ArrayDefinition, items: seq<Item>, data: Json)
    ensures FitsArray(list, items, Replace, data)
  {
  }

  // ----------------------------------------------------------------------- controls on their own

  /** A control is without input after an accepted transaction if some write is not apart from it, and untouched if all
  are. */
  lemma TransactedControl(d: Definition, s: State, data: Json, writes: seq<Pointer>, changes: seq<HostChange>,
                          itemWrites: seq<ItemWrite>, c: nat)
    requires Shaped(d, s) && HostTransaction(d, s, data, writes, changes, itemWrites).1.Ok? && c < |d.controls|
    ensures |HostTransaction(d, s, data, writes, changes, itemWrites).0.edits| == |d.controls|
    ensures HostTransaction(d, s, data, writes, changes, itemWrites).0.edits[c]
         == if exists w :: 0 <= w < |writes| && !Apart(writes[w], d.controls[c].binding)
            then EditState(None, None, s.edits[c].touched) else s.edits[c]
  {
    SuccessUnfolds(d, s, data, writes, changes, itemWrites);
    HittingIsTouching(writes, d.controls[c].binding);
    hide HostTransaction, Hits, Apart;
  }

  /** A transaction that changes data only at places its writes are not apart from leaves every control on its own
  honest. */
  lemma WritingWhereItChangesIsHonest(d: Definition, s: State, data: Json, writes: seq<Pointer>, changes: seq<HostChange>,
                                      itemWrites: seq<ItemWrite>)
    requires Sound(d, s) && Honest(d, s) && HostTransaction(d, s, data, writes, changes, itemWrites).1.Ok?
    requires forall p | (forall w | 0 <= w < |writes| :: Apart(writes[w], p)) ::
               OptionallyEqual(Resolve(s.data, p), Resolve(data, p))
    ensures |HostTransaction(d, s, data, writes, changes, itemWrites).0.edits| == |d.controls|
    ensures HonestEdits(d.controls, HostTransaction(d, s, data, writes, changes, itemWrites).0.edits,
                        HostTransaction(d, s, data, writes, changes, itemWrites).0.data)
  {
    var t := HostTransaction(d, s, data, writes, changes, itemWrites).0;
    SuccessUnfolds(d, s, data, writes, changes, itemWrites);
    hide HostTransaction, HonestEdits, Resolve, OptionallyEqual, EditsStand, JsonEqual;
    forall c | 0 <= c < |d.controls|
      ensures Touches(writes, d.controls[c].binding)
           || OptionallyEqual(Resolve(s.data, d.controls[c].binding), Resolve(t.data, d.controls[c].binding))
    {
      HittingIsTouching(writes, d.controls[c].binding);
      EqualDataResolvesAlike(s.data, d.controls[c].binding);
    }
    CoveredControlsStand(d.controls, s.edits, s.data, t.data, writes);
    ClearedEditsAreHonest(d.controls, s.edits, t.edits, s.data);
    StandingEditsAreHonest(d.controls, t.edits, s.data, t.data);
  }

  lemma EqualDataResolvesAlike(data: Json, p: Pointer)
    ensures OptionallyEqual(Resolve(data, p), Resolve(data, p))
  {
    hide Resolve;
    if Resolve(data, p).Some? {
      EqualToItself(Resolve(data, p).value);
    }
  }

  // ------------------------------------------------------------------------- controls in items

  /** Some item write names the item, and is not apart from the control. */
  ghost predicate TouchesItem(itemWrites: seq<ItemWrite>, k: nat, identity: nat, binding: Pointer) {
    exists w :: 0 <= w < |itemWrites| && itemWrites[w].list == k && itemWrites[w].identity == identity
             && !Apart(itemWrites[w].binding, binding)
  }

  lemma ItemHitIsTouching(itemWrites: seq<ItemWrite>, k: nat, identity: nat, binding: Pointer)
    ensures ItemIsHit(itemWrites, k, identity, binding) <==> TouchesItem(itemWrites, k, identity, binding)
  {
  }

  /** A kept item stands where the topology puts it; each of its controls is without input if an item write for it is not
  apart from the control, and as it was otherwise. */
  lemma TransactedItem(d: Definition, s: State, data: Json, writes: seq<Pointer>, changes: seq<HostChange>,
                       itemWrites: seq<ItemWrite>, k: nat, i: nat, j: nat, c: nat)
    requires Sound(d, s) && HostTransaction(d, s, data, writes, changes, itemWrites).1.Ok? && k < |d.arrays|
    requires |changes| == |d.arrays| && changes[k].Preserve? && i < |changes[k].topology| && j < |s.arrays[k].items|
    requires changes[k].topology[i] == Existing(s.arrays[k].items[j].identity) && c < |d.arrays[k].controls|
    ensures var t, item := HostTransaction(d, s, data, writes, changes, itemWrites).0, s.arrays[k].items[j];
            && i < |t.arrays[k].items| && t.arrays[k].items[i].identity == item.identity
            && |t.arrays[k].items[i].edits| == |item.edits| == |d.arrays[k].controls|
            && t.arrays[k].items[i].edits[c]
            == if TouchesItem(itemWrites, k, item.identity, d.arrays[k].controls[c].binding)
               then EditState(None, None, item.edits[c].touched) else item.edits[c]
  {
    SuccessUnfolds(d, s, data, writes, changes, itemWrites);
    WhenTransactionsSucceed(d, s, data, writes, changes, itemWrites);
    SoundItemsAreDistinct(d, s, k);
    ItemHitIsTouching(itemWrites, k, s.arrays[k].items[j].identity, d.arrays[k].controls[c].binding);
    hide HostTransaction, WellFormedTransaction, ClearedByItemWrites, Planned, NamesLiveItem, Sound, AllShaped, JsonEqual,
         ClearedByWrites, PlansOf, DistinctItems, Reaches, ItemIsHit, TouchesItem;
    KeptItemIsPlaced(d, s, data, writes, changes, itemWrites, k, i, j);
    ItemWritesClear(d.arrays, s.arrays, itemWrites, k, j, c);
    ReachedIsHit(s.arrays, itemWrites, k, j, s.nextIdentity, d.arrays[k].controls[c].binding);
  }

  // ------------------------------------------------------------------------------ new items

  /** How many new items the first arrays get together. */
  function NewInFront(d: Definition, changes: seq<HostChange>, data: Json, k: nat): nat
    requires k <= |d.arrays| == |changes|
  {
    if k == 0 then 0
    else
      NewInFront(d, changes, data, k - 1) +
      match changes[k - 1]
      case Replace => |ValuesAt(data, d.arrays[k - 1].binding)|
      case Preserve(topology) => Freshly(topology)
  }

  lemma {:induction false} NothingFreshAsIs(items: seq<Item>, n: nat)
    requires n <= |items|
    ensures Freshly(AsIs(items)[..n]) == 0
    decreases n
  {
    if n > 0 {
      NothingFreshAsIs(items, n - 1);
      assert AsIs(items)[..n][..n - 1] == AsIs(items)[..n - 1];
    }
  }

  lemma {:induction false} NewInFrontIsPlanned(d: Definition, s: State, changes: seq<HostChange>, data: Json, k: nat)
    requires k <= |d.arrays| == |changes| == |s.arrays|
    ensures NewBefore(d.arrays, PlansOf(s.arrays, changes), data, k) == NewInFront(d, changes, data, k)
    decreases k
  {
    hide ValuesAt, Freshly;
    if k > 0 {
      NewInFrontIsPlanned(d, s, changes, data, k - 1);
      var items := s.arrays[k - 1].items;
      NothingFreshAsIs(items, |items|);
      assert AsIs(items)[..|items|] == AsIs(items);
    }
  }

  /** The new items of an array: all of a replaced one, those that a topology asks for of another. They are blank, and
  numbered in order after those of the arrays before. */
  ghost predicate NewItemsNumbered(list: ArrayDefinition, change: HostChange, count: nat, first: nat, items: seq<Item>) {
    match change
    case Replace => NumberedBlanks(list, items, first, count)
    case Preserve(topology) =>
      && |items| == |topology|
      && forall i | 0 <= i < |topology| && topology[i].Fresh? ::
           IsBlank(items[i], first + Freshly(topology[..i]), |list.controls|)
  }

  lemma PlanNumbersNewItems(list: ArrayDefinition, former: seq<Item>, cleared: seq<Item>, change: HostChange, data: Json,
                            first: nat)
    requires |cleared| == |former|
    ensures NewItemsNumbered(list, change, |ValuesAt(data, list.binding)|, first,
                             PlannedItems(list, cleared, PlanOf(former, change), data, first).0)
  {
    hide ValuesAt, Arranged, Freshly;
    if change.Preserve? && change.topology != AsIs(former) {
      ArrangedNumbers(list, cleared, change.topology, first);
    }
  }

  lemma TransactedNewItems(d: Definition, s: State, data: Json, writes: seq<Pointer>, changes: seq<HostChange>,
                           itemWrites: seq<ItemWrite>, t: State, k: nat)
    requires Shaped(d, s) && HostTransaction(d, s, data, writes, changes, itemWrites) == (t, Ok(())) && k < |d.arrays|
    ensures |changes| == |d.arrays| == |t.arrays| && t.arrays[k].touched == s.arrays[k].touched
    ensures NewItemsNumbered(d.arrays[k], changes[k], |ValuesAt(t.data, d.arrays[k].binding)|,
                             s.nextIdentity + NewInFront(d, changes, t.data, k), t.arrays[k].items)
  {
    hide *;
    ArraysArePlanned(d, s, data, writes, changes, itemWrites);
    ItemsAreAsMany(d, s, itemWrites, k);
    PlannedNewItems(d, s, changes, t.data, ClearedByItemWrites(d.arrays, s.arrays, itemWrites).0, k);
  }

  lemma ArraysArePlanned(d: Definition, s: State, data: Json, writes: seq<Pointer>, changes: seq<HostChange>,
                         itemWrites: seq<ItemWrite>)
    requires Shaped(d, s) && HostTransaction(d, s, data, writes, changes, itemWrites).1.Ok?
    ensures |changes| == |d.arrays| == |s.arrays| && AllShaped(d.arrays, s.arrays)
    ensures var t := HostTransaction(d, s, data, writes, changes, itemWrites).0;
            t.arrays == Planned(d.arrays, ClearedByItemWrites(d.arrays, s.arrays, itemWrites).0, PlansOf(s.arrays, changes),
                                t.data, s.nextIdentity).0
  {
    SuccessUnfolds(d, s, data, writes, changes, itemWrites);
    hide HostTransaction, Planned, PlansOf, ClearedByItemWrites;
  }

  lemma PlannedNewItems(d: Definition, s: State, changes: seq<HostChange>, data: Json, cleared: seq<ArrayState>, k: nat)
    requires |d.arrays| == |s.arrays| == |changes| == |cleared| && k < |d.arrays|
    requires |cleared[k].items| == |s.arrays[k].items| && cleared[k].touched == s.arrays[k].touched
    ensures var arrays := Planned(d.arrays, cleared, PlansOf(s.arrays, changes), data, s.nextIdentity).0;
            && |arrays| == |d.arrays| && arrays[k].touched == s.arrays[k].touched
            && NewItemsNumbered(d.arrays[k], changes[k], |ValuesAt(data, d.arrays[k].binding)|,
                                s.nextIdentity + NewInFront(d, changes, data, k), arrays[k].items)
  {
    hide Planned, PlannedItems, NewBefore, NewInFront, ValuesAt, NewItemsNumbered, PlanOf;
    PlannedArray(d.arrays, cleared, PlansOf(s.arrays, changes), data, s.nextIdentity, k);
    NewInFrontIsPlanned(d, s, changes, data, k);
    PlanNumbersNewItems(d.arrays[k], s.arrays[k].items, cleared[k].items, changes[k], data,
                        s.nextIdentity + NewInFront(d, changes, data, k));
  }

  lemma ItemsAreAsMany(d: Definition, s: State, itemWrites: seq<ItemWrite>, k: nat)
    requires |d.arrays| == |s.arrays| && AllShaped(d.arrays, s.arrays) && k < |d.arrays|
    ensures var cleared := ClearedByItemWrites(d.arrays, s.arrays, itemWrites).0;
            |cleared[k].items| == |s.arrays[k].items| && cleared[k].touched == s.arrays[k].touched
  {
    ItemWritesOnlyClear(d.arrays, s.arrays, itemWrites);
    hide OnlyClearedItem, ClearedByItemWrites, AllShaped;
  }

  // ------------------------------------------------------------------------------ the records

  /** An accepted transaction replaces unequal data, drops the findings and moves the data revision exactly then; the state
  revision moves exactly when anything changes at all, or some array is replaced, be it empty. */
  lemma TransactionIsRecorded(d: Definition, s: State, data: Json, writes: seq<Pointer>, changes: seq<HostChange>,
                              itemWrites: seq<ItemWrite>)
    requires Sound(d, s) && HostTransaction(d, s, data, writes, changes, itemWrites).1.Ok?
    ensures |changes| == |d.arrays|
    ensures var t, equal := HostTransaction(d, s, data, writes, changes, itemWrites).0, JsonEqual(s.data, data);
            t == s.(edits := t.edits, arrays := t.arrays, data := if equal then s.data else data,
                    nextIdentity := s.nextIdentity + NewInFront(d, changes, t.data, |d.arrays|),
                    batches := if equal then s.batches else [],
                    dataRevision := if equal then s.dataRevision else s.dataRevision + 1,
                    stateRevision := if t.(stateRevision := s.stateRevision) == s && AllPreserved(changes)
                                     then s.stateRevision else s.stateRevision + 1)
  {
    var t := HostTransaction(d, s, data, writes, changes, itemWrites).0;
    TransactionUnfolds(d, s, data, writes, changes, itemWrites);
    var cleared := ClearedByItemWrites(d.arrays, s.arrays, itemWrites).0;
    PlannedTotal(d.arrays, cleared, PlansOf(s.arrays, changes), t.data, s.nextIdentity);
    NewInFrontIsPlanned(d, s, changes, t.data, |d.arrays|);
    MovedMeansChanged(d, s, data, writes, changes, itemWrites);
    hide HostTransaction, Planned, ClearedByItemWrites, NewBefore, NewInFront, JsonEqual, ClearedByWrites, PlansOf, Sound,
         AnyMoved, Committed;
  }

  lemma TransactionUnfolds(d: Definition, s: State, data: Json, writes: seq<Pointer>, changes: seq<HostChange>,
                           itemWrites: seq<ItemWrite>)
    requires Shaped(d, s) && HostTransaction(d, s, data, writes, changes, itemWrites).1.Ok?
    ensures |changes| == |d.arrays| && AllShaped(d.arrays, s.arrays)
    ensures var t, equal := HostTransaction(d, s, data, writes, changes, itemWrites).0, JsonEqual(s.data, data);
            var edits, cleared := ClearedByWrites(d.controls, s.edits, writes),
                                  ClearedByItemWrites(d.arrays, s.arrays, itemWrites).0;
            var plans := PlansOf(s.arrays, changes);
            t == s.(edits := edits, arrays := Planned(d.arrays, cleared, plans, t.data, s.nextIdentity).0,
                    nextIdentity := Planned(d.arrays, cleared, plans, t.data, s.nextIdentity).1,
                    data := if equal then s.data else data, batches := if equal then s.batches else [],
                    dataRevision := if equal then s.dataRevision else s.dataRevision + 1,
                    stateRevision := if !equal || AnyMoved(plans) || edits != s.edits || cleared != s.arrays
                                     then s.stateRevision + 1 else s.stateRevision)
  {
    hide JsonEqual, Planned, ClearedByItemWrites, FitsArray, AnyMoved, ClearedByWrites, PlansOf;
  }

  predicate AllPreserved(changes: seq<HostChange>) {
    forall k | 0 <= k < |changes| :: changes[k].Preserve?
  }

  lemma {:induction false} KeepingKeeps(lists: seq<ArrayDefinition>, arrays: seq<ArrayState>, plans: seq<Plan>, data: Json,
                                        next: nat)
    requires |lists| == |arrays| == |plans| && !AnyMoved(plans)
    ensures Planned(lists, arrays, plans, data, next) == (arrays, next)
    decreases |arrays|
  {
    if arrays == [] {
    } else {
      var last := |arrays| - 1;
      assert plans[last] == Keep && forall k | 0 <= k < last :: plans[..last][k] == plans[k];
      KeepingKeeps(lists[..last], arrays[..last], plans[..last], data, next);
      assert arrays == arrays[..last] + [arrays[last].(items := arrays[last].items)];
    }
  }

  /** Where the items are the former ones, a topology has left every one in place. */
  lemma UnmovedTopology(d: Definition, s: State, data: Json, writes: seq<Pointer>, changes: seq<HostChange>,
                        itemWrites: seq<ItemWrite>, k: nat)
    requires Sound(d, s) && HostTransaction(d, s, data, writes, changes, itemWrites).1.Ok? && k < |d.arrays|
    requires |changes| == |d.arrays| && changes[k].Preserve?
    requires HostTransaction(d, s, data, writes, changes, itemWrites).0.arrays == s.arrays
    ensures changes[k].topology == AsIs(s.arrays[k].items)
  {
    ItemsFollowTheTopology(d, s, data, writes, changes, itemWrites, k);
    SoundItemsAreDistinct(d, s, k);
    hide HostTransaction, Sound, Survives;
  }

  lemma MovedMeansChanged(d: Definition, s: State, data: Json, writes: seq<Pointer>, changes: seq<HostChange>,
                          itemWrites: seq<ItemWrite>)
    requires Sound(d, s) && HostTransaction(d, s, data, writes, changes, itemWrites).1.Ok?
    ensures var t := HostTransaction(d, s, data, writes, changes, itemWrites).0;
            t.stateRevision == if t.(stateRevision := s.stateRevision) == s && AllPreserved(changes) then s.stateRevision
                               else s.stateRevision + 1
  {
    var t := HostTransaction(d, s, data, writes, changes, itemWrites).0;
    var cleared, plans := ClearedByItemWrites(d.arrays, s.arrays, itemWrites).0, PlansOf(s.arrays, changes);
    TransactionUnfolds(d, s, data, writes, changes, itemWrites);
    hide HostTransaction, Planned, ClearedByItemWrites, JsonEqual, ClearedByWrites, Sound;
    if t.arrays == s.arrays {
      forall k | 0 <= k < |d.arrays| && changes[k].Preserve? ensures plans[k] == Keep {
        UnmovedTopology(d, s, data, writes, changes, itemWrites, k);
      }
    }
    if !AnyMoved(plans) {
      KeepingKeeps(d.arrays, cleared, plans, t.data, s.nextIdentity);
    }
  }
}
