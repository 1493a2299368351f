/** When structures are written, how new items are numbered, and the whole form that is left. */
module StructureAnswers {
  import opened Bytes
  import opened Decimal
  import opened Json
  import opened FormModel
  import opened ArrayOperations
  import opened Structures
  import opened Effects
  import opened RowAnswers

  // ------------------------------------------------------------------------- numbering

  /** How many new items an array gets. */
  function NewItems(list: ArrayDefinition, plan: Plan, data: Json): nat {
    match plan
    case Keep => 0
    case Renew => |ValuesAt(data, list.binding)|
    case Rearrange(topology) => Freshly(topology)
  }

  function Freshly(topology: seq<HostItem>): nat {
    if topology == [] then 0
    else Freshly(topology[..|topology| - 1]) + if topology[|topology| - 1].Fresh? then 1 else 0
  }

  /** How many new items the first arrays get together. */
  function NewBefore(lists: seq<ArrayDefinition>, plans: seq<Plan>, data: Json, k: nat): nat
    requires k <= |lists| == |plans|
  {
    if k == 0 then 0 else NewBefore(lists, plans, data, k - 1) + NewItems(lists[k - 1], plans[k - 1], data)
  }

  lemma {:induction false} NewBeforeInFront(lists: seq<ArrayDefinition>, plans: seq<Plan>, data: Json, k: nat, last: nat)
    requires k <= last <= |lists| == |plans|
    ensures NewBefore(lists[..last], plans[..last], data, k) == NewBefore(lists, plans, data, k)
    decreases k
  {
    hide NewItems;
    if k > 0 {
      NewBeforeInFront(lists, plans, data, k - 1, last);
    }
  }

  lemma {:induction false} ArrangedNumbers(list: ArrayDefinition, items: seq<Item>, topology: seq<HostItem>, next: nat)
    ensures Arranged(list, items, topology, next).1 == next + Freshly(topology)
    ensures |Arranged(list, items, topology, next).0| == |topology|
    ensures forall i | 0 <= i < |topology| && topology[i].Fresh? ::
              Arranged(list, items, topology, next).0[i] == NewItem(list, next + Freshly(topology[..i]))
    decreases |topology|
  {
    if topology == [] {
    } else {
      hide NewItem, ItemWith;
      var front := topology[..|topology| - 1];
      ArrangedNumbers(list, items, front, next);
      assert forall i | 0 <= i < |front| :: front[..i] == topology[..i] && front[i] == topology[i];
    }
  }

  lemma {:induction false} PlannedTotal(lists: seq<ArrayDefinition>, arrays: seq<ArrayState>, plans: seq<Plan>,
                                        data: Json, next: nat)
    requires |lists| == |arrays| == |plans|
    ensures Planned(lists, arrays, plans, data, next).1 == next + NewBefore(lists, plans, data, |lists|)
    decreases |arrays|
  {
    if arrays == [] {
    } else {
      var last := |arrays| - 1;
      PlannedTotal(lists[..last], arrays[..last], plans[..last], data, next);
      NewBeforeInFront(lists, plans, data, last, last);
      PlannedCounts(lists[last], arrays[last].items, plans[last], data,
                    Planned(lists[..last], arrays[..last], plans[..last], data, next).1);
      hide PlannedItems, NewItems;
    }
  }

  /** New items take consecutive identities, array after array and place after place. */
  lemma {:induction false} PlannedArray(lists: seq<ArrayDefinition>, arrays: seq<ArrayState>, plans: seq<Plan>,
                                        data: Json, next: nat, k: nat)
    requires |lists| == |arrays| == |plans| && k < |lists|
    ensures Planned(lists, arrays, plans, data, next).0[k]
         == ArrayState(PlannedItems(lists[k], arrays[k].items, plans[k], data,
                                    next + NewBefore(lists, plans, data, k)).0, arrays[k].touched)
    decreases |arrays|
  {
    var last := |arrays| - 1;
    NewBeforeInFront(lists, plans, data, k, last);
    LastPlanned(lists, arrays, plans, data, next);
    hide Planned, PlannedItems, NewBefore, NewItems;
    if k < last {
      PlannedArray(lists[..last], arrays[..last], plans[..last], data, next, k);
    } else {
      PlannedTotal(lists[..last], arrays[..last], plans[..last], data, next);
    }
  }

  lemma LastPlanned(lists: seq<ArrayDefinition>, arrays: seq<ArrayState>, plans: seq<Plan>, data: Json, next: nat)
    requires |lists| == |arrays| == |plans| && arrays != []
    ensures var last := |arrays| - 1;
            var (before, n) := Planned(lists[..last], arrays[..last], plans[..last], data, next);
            Planned(lists, arrays, plans, data, next).0
            == before + [ArrayState(PlannedItems(lists[last], arrays[last].items, plans[last], data, n).0,
                                    arrays[last].touched)]
  {
    hide PlannedItems;
  }

  lemma PlannedCounts(list: ArrayDefinition, items: seq<Item>, plan: Plan, data: Json, next: nat)
    ensures PlannedItems(list, items, plan, data, next).1 == next + NewItems(list, plan, data)
  {
    if plan.Rearrange? {
      ArrangedNumbers(list, items, plan.topology, next);
    }
    hide Arranged, Freshly, ValuesAt;
  }

  // ---------------------------------------------------------------- arrays below a written place

  /** The elements of the arrays at or below the pointer, in the first arrays together. */
  function ElementsBelow(d: Definition, at: Pointer, data: Json, k: nat): nat
    requires k <= |d.arrays|
  {
    if k == 0 then 0
    else
      ElementsBelow(d, at, data, k - 1) +
      if at <= d.arrays[k - 1].binding then |ValuesAt(data, d.arrays[k - 1].binding)| else 0
  }

  /** One blank item for each element, numbered from a first identity. */
  ghost predicate NumberedBlanks(list: ArrayDefinition, items: seq<Item>, first: nat, count: nat) {
    |items| == count && forall i | 0 <= i < count :: IsBlank(items[i], first + i, |list.controls|)
  }

  /** An array at or below the pointer gets blank items, numbered after those of the arrays before; another keeps its. */
  ghost predicate NumberedArray(d: Definition, at: Pointer, data: Json, former: seq<ArrayState>, next: nat,
                                arrays: seq<ArrayState>, k: nat)
    requires |former| == |d.arrays| == |arrays| && k < |d.arrays|
  {
    && arrays[k].touched == former[k].touched
    && if at <= d.arrays[k].binding then
         NumberedBlanks(d.arrays[k], arrays[k].items, next + ElementsBelow(d, at, data, k),
                        |ValuesAt(data, d.arrays[k].binding)|)
       else arrays[k].items == former[k].items
  }

  ghost predicate NumberedBelow(d: Definition, at: Pointer, data: Json, former: seq<ArrayState>, next: nat,
                                arrays: seq<ArrayState>)
    requires |former| == |d.arrays|
  {
    && |arrays| == |d.arrays|
    && forall k | 0 <= k < |d.arrays| :: NumberedArray(d, at, data, former, next, arrays, k)
  }

  lemma {:induction false} BelowIsCounted(d: Definition, at: Pointer, data: Json, k: nat)
    requires k <= |d.arrays|
    ensures NewBefore(d.arrays, BelowPlans(d, at), data, k) == ElementsBelow(d, at, data, k)
    decreases k
  {
    hide ValuesAt;
    if k > 0 {
      BelowIsCounted(d, at, data, k - 1);
    }
  }

  lemma RestructuredIsNumbered(d: Definition, s: State, at: Pointer, data: Json)
    requires Shaped(d, s)
    ensures var t := Restructured(d, s, at, data);
            && NumberedBelow(d, at, data, s.arrays, s.nextIdentity, t.arrays)
            && t == s.(data := data, arrays := t.arrays,
                       nextIdentity := s.nextIdentity + ElementsBelow(d, at, data, |d.arrays|))
  {
    hide NumberedArray, Restructured, ElementsBelow;
    RestructuredIsCounted(d, s, at, data);
    forall k | 0 <= k < |d.arrays|
      ensures NumberedArray(d, at, data, s.arrays, s.nextIdentity, Restructured(d, s, at, data).arrays, k)
    {
      RestructuredArrayIsNumbered(d, s, at, data, k);
    }
  }

  lemma RestructuredIsCounted(d: Definition, s: State, at: Pointer, data: Json)
    requires Shaped(d, s)
    ensures var t := Restructured(d, s, at, data);
            && |t.arrays| == |d.arrays|
            && t == s.(data := data, arrays := t.arrays,
                       nextIdentity := s.nextIdentity + ElementsBelow(d, at, data, |d.arrays|))
  {
    hide Planned, NewBefore, ElementsBelow, BelowPlans;
    PlannedTotal(d.arrays, s.arrays, BelowPlans(d, at), data, s.nextIdentity);
    BelowIsCounted(d, at, data, |d.arrays|);
  }

  lemma RestructuredArrayIsNumbered(d: Definition, s: State, at: Pointer, data: Json, k: nat)
    requires Shaped(d, s) && k < |d.arrays|
    ensures |Restructured(d, s, at, data).arrays| == |d.arrays|
    ensures NumberedArray(d, at, data, s.arrays, s.nextIdentity, Restructured(d, s, at, data).arrays, k)
  {
    hide NumberedArray, Planned, ValuesAt, NewBefore, ElementsBelow, PlannedItems, BelowPlans;
    PlannedArray(d.arrays, s.arrays, BelowPlans(d, at), data, s.nextIdentity, k);
    BelowIsCounted(d, at, data, k);
    ArrayIsNumbered(d, at, data, s.arrays, s.nextIdentity, Restructured(d, s, at, data).arrays, k);
  }

  lemma ArrayIsNumbered(d: Definition, at: Pointer, data: Json, former: seq<ArrayState>, next: nat,
                        arrays: seq<ArrayState>, k: nat)
    requires |former| == |d.arrays| == |arrays| && k < |d.arrays|
    requires arrays[k] == ArrayState(PlannedItems(d.arrays[k], former[k].items, BelowPlans(d, at)[k], data,
                                                  next + ElementsBelow(d, at, data, k)).0, former[k].touched)
    ensures NumberedArray(d, at, data, former, next, arrays, k)
  {
    hide ValuesAt, ElementsBelow;
  }

  // ------------------------------------------------------------------------ materialising

  /** A structure is made exactly where nothing is but an object above; every refusal has its error. */
  lemma MaterializeIsDecided(d: Definition, s: State, at: Pointer, seed: Json)
    requires Shaped(d, s)
    ensures var (t, r) := Materialize(d, s, at, seed);
            if Resolve(s.data, at).Some? || !(seed.Array? || seed.Object?) then t == s && r == Err(OperationNotAllowed)
            else if !ObjectAbove(s.data, at) then t == s && r == Err(UnresolvedControl)
            else
              && r == Ok(()) && RecordsDataChange(s, t) && Resolve(t.data, at) == Some(seed)
              && OnlyDataAt(s.data, t.data, at) && t.edits == s.edits
              && NumberedBelow(d, at, t.data, s.arrays, s.nextIdentity, t.arrays)
              && t.nextIdentity == s.nextIdentity + ElementsBelow(d, at, t.data, |d.arrays|)
  {
    WhereSetBoundSucceeds(s.data, at, seed);
    if SetBound(s.data, at, seed).Some? {
      var data := SetBound(s.data, at, seed).value;
      SetBoundTakesEffect(s.data, at, seed);
      RestructuredIsNumbered(d, s, at, data);
      hide Restructured, NumberedBelow, OnlyDataAt, SetBound, ElementsBelow;
    }
  }

  // ------------------------------------------------------------------- replacing and removing

  /** Input at or below the pointer is cleared, whether or not a control was touched; all other input stays. */
  ghost predicate InputClearedBelow(controls: seq<ControlDefinition>, base: Pointer, at: Pointer, former: seq<EditState>,
                                    edits: seq<EditState>) {
    && |edits| == |former| == |controls|
    && forall c | 0 <= c < |controls| ::
         edits[c] == if at <= base + controls[c].binding then EditState(None, None, former[c].touched) else former[c]
  }

  /** An array at or below the pointer has blank items; in another every item is where it was, with its input cleared
  if it sits at or below the pointer. */
  ghost predicate WrittenArray(d: Definition, s: State, at: Pointer, t: State, k: nat)
    requires |s.arrays| == |d.arrays| == |t.arrays| && k < |d.arrays|
  {
    && t.arrays[k].touched == s.arrays[k].touched
    && if at <= d.arrays[k].binding then
         NumberedBlanks(d.arrays[k], t.arrays[k].items, s.nextIdentity + ElementsBelow(d, at, t.data, k),
                        |ValuesAt(t.data, d.arrays[k].binding)|)
       else ItemsClearedBelow(d.arrays[k], at, s.arrays[k].items, t.arrays[k].items)
  }

  ghost predicate WrittenBelow(d: Definition, s: State, at: Pointer, t: State)
    requires Shaped(d, s)
  {
    && InputClearedBelow(d.controls, [], at, s.edits, t.edits)
    && t.nextIdentity == s.nextIdentity + ElementsBelow(d, at, t.data, |d.arrays|)
    && |t.arrays| == |d.arrays|
    && forall k | 0 <= k < |d.arrays| :: WrittenArray(d, s, at, t, k)
  }

  ghost predicate ItemsClearedBelow(list: ArrayDefinition, at: Pointer, former: seq<Item>, items: seq<Item>) {
    && |items| == |former|
    && forall i | 0 <= i < |former| ::
         && items[i].identity == former[i].identity
         && InputClearedBelow(list.controls, list.binding + [NatText(i)], at, former[i].edits, items[i].edits)
  }

  lemma ClearedItemsAreCleared(list: ArrayDefinition, at: Pointer, items: seq<Item>)
    requires ItemsShaped(items, |list.controls|)
    ensures ItemsClearedBelow(list, at, items, ClearedItems(list, items, at))
  {
  }

  lemma BlanksStayBlank(list: ArrayDefinition, at: Pointer, items: seq<Item>, first: nat, count: nat)
    requires NumberedBlanks(list, items, first, count) && ItemsShaped(items, |list.controls|)
    ensures NumberedBlanks(list, ClearedItems(list, items, at), first, count)
  {
  }

  lemma ArrayIsWritten(d: Definition, s: State, at: Pointer, data: Json, k: nat)
    requires Shaped(d, s) && k < |d.arrays|
    ensures WrittenArray(d, s, at, DataChanged(ClearedBelow(d, ShapedRestructured(d, s, at, data), at)), k)
  {
    var u := ShapedRestructured(d, s, at, data);
    var t := DataChanged(ClearedBelow(d, u, at));
    RestructuredIsNumbered(d, s, at, data);
    assert t.data == data && AllShaped(d.arrays, u.arrays);
    assert t.arrays[k] == u.arrays[k].(items := ClearedItems(d.arrays[k], u.arrays[k].items, at));
    assert NumberedArray(d, at, data, s.arrays, s.nextIdentity, u.arrays, k);
    hide Restructured, ShapedRestructured, ValuesAt, ElementsBelow, NumberedBlanks, ClearedItems, ItemsClearedBelow,
         ClearedBelow;
    assert ItemsShaped(u.arrays[k].items, |d.arrays[k].controls|);
    if at <= d.arrays[k].binding {
      BlanksStayBlank(d.arrays[k], at, u.arrays[k].items, s.nextIdentity + ElementsBelow(d, at, data, k),
                      |ValuesAt(data, d.arrays[k].binding)|);
    } else {
      ClearedItemsAreCleared(d.arrays[k], at, s.arrays[k].items);
    }
  }

  lemma RestructuredAndClearedIsWritten(d: Definition, s: State, at: Pointer, data: Json)
    requires Shaped(d, s)
    ensures var t := DataChanged(ClearedBelow(d, ShapedRestructured(d, s, at, data), at));
            t.data == data && WrittenBelow(d, s, at, t) && RecordsDataChange(s, t)
  {
    RestructuredIsNumbered(d, s, at, data);
    hide WrittenArray, Restructured, ElementsBelow, NumberedBelow;
    forall k | 0 <= k < |d.arrays|
      ensures WrittenArray(d, s, at, DataChanged(ClearedBelow(d, ShapedRestructured(d, s, at, data), at)), k)
    {
      ArrayIsWritten(d, s, at, data, k);
    }
  }

  /** A present value of another type gives way to an object or an array; an array gives way to an array only where a
  multiple choice is bound. */
  predicate GivesWay(d: Definition, at: Pointer, current: Json, value: Json) {
    match value
    case Object(_) => !current.Object?
    case Array(_) =>
      !current.Array? || exists k | 0 <= k < |d.arrays| :: d.arrays[k].binding == at && OffersChoices(d.arrays[k])
    case _ => false
  }

  lemma GivingWayIsAllowed(d: Definition, s: State, at: Pointer, value: Json)
    ensures MayReplaceStructure(d, s, at, value)
       <==> Resolve(s.data, at).Some? && GivesWay(d, at, Resolve(s.data, at).value, value)
  {
    hide Resolve;
  }

  /** Replacing is accepted exactly where a value is that gives way. */
  lemma ReplaceStructureIsDecided(d: Definition, s: State, at: Pointer, value: Json)
    requires Shaped(d, s)
    ensures var (t, r) := ReplaceStructure(d, s, at, value);
            if Resolve(s.data, at).Some? && GivesWay(d, at, Resolve(s.data, at).value, value) then
              && r == Ok(()) && RecordsDataChange(s, t) && Resolve(t.data, at) == Some(value)
              && OnlyDataAt(s.data, t.data, at) && WrittenBelow(d, s, at, t)
            else t == s && r == Err(OperationNotAllowed)
  {
    GivingWayIsAllowed(d, s, at, value);
    WhereSetBoundSucceeds(s.data, at, value);
    hide MayReplaceStructure, GivesWay;
    if MayReplaceStructure(d, s, at, value) {
      SetBoundTakesEffect(s.data, at, value);
      RestructuredAndClearedIsWritten(d, s, at, SetBound(s.data, at, value).value);
    }
    hide ShapedRestructured, ClearedBelow, OnlyDataAt, SetBound, WrittenBelow, Resolve;
  }

  /** A value can be taken out exactly where it is a member of an object. */
  lemma {:induction false} WhereTakeBoundSucceeds(v: Json, p: Pointer)
    ensures TakeBound(v, p).Some? <==> Resolve(v, p).Some? && ObjectAbove(v, p)
    decreases |p|
  {
    if p != [] {
      if |p| > 1 {
        assert p[1..][..|p| - 2] == p[..|p| - 1][1..];
        match v
        case Object(members) =>
          if p[0] in members {
            WhereTakeBoundSucceeds(members[p[0]], p[1..]);
          }
        case Array(items) =>
          var index := IndexOfToken(p[0]);
          if index.Some? && index.value < |items| {
            WhereTakeBoundSucceeds(items[index.value], p[1..]);
          }
        case _ =>
      } else {
        assert p[..0] == [];
        if v.Array? {
          var index := IndexOfToken(p[0]);
          assert TakeBound(v, p).None?;
        }
      }
    }
  }

  /** Removing is accepted exactly for a present member of an object. */
  lemma RemoveValueIsDecided(d: Definition, s: State, at: Pointer)
    requires Shaped(d, s)
    ensures var (t, r) := RemoveValue(d, s, at);
            if Resolve(s.data, at).Some? && ObjectAbove(s.data, at) then
              && r == Ok(()) && RecordsDataChange(s, t) && Resolve(t.data, at) == None
              && OnlyDataAt(s.data, t.data, at) && WrittenBelow(d, s, at, t)
            else t == s && r == Err(UnresolvedControl)
  {
    WhereTakeBoundSucceeds(s.data, at);
    hide ObjectAbove;
    if TakeBound(s.data, at).Some? {
      var data := TakeBound(s.data, at).value;
      TakeBoundRemoves(s.data, at);
      forall q | Apart(at, q) ensures Resolve(data, q) == Resolve(s.data, q) {
        TakeBoundFrame(s.data, at, q);
      }
      assert OnlyDataAt(s.data, data, at);
      RestructuredAndClearedIsWritten(d, s, at, data);
    }
    hide ShapedRestructured, ClearedBelow, OnlyDataAt, TakeBound, WrittenBelow, Resolve;
  }
}
