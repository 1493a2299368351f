/** What creating, resetting, reinitialising, submitting and reporting leave behind, field by field. */
module LifecycleAnswers {
  import opened Bytes
  import opened Json
  import opened FormModel
  import opened ControlEdits
  import opened Structures
  import opened Lifecycle
  import opened ExternalFindings
  import opened FormRuns
  import opened RowAnswers
  import opened StructureAnswers

  // ------------------------------------------------------------------ creating and reinitialising

  ghost predicate NothingTyped(edits: seq<EditState>, controls: nat) {
    |edits| == controls && forall c | 0 <= c < controls :: edits[c] == EditState(None, None, false)
  }

  /** The elements of the first arrays together. */
  function ElementsInFront(d: Definition, data: Json, k: nat): nat
    requires k <= |d.arrays|
  {
    if k == 0 then 0 else ElementsInFront(d, data, k - 1) + |ValuesAt(data, d.arrays[k - 1].binding)|
  }

  /** An untouched array with a blank item for each element, numbered after those of the arrays before. */
  ghost predicate MadeArray(d: Definition, data: Json, first: nat, made: ArrayState, k: nat)
    requires k < |d.arrays|
  {
    && !made.touched
    && NumberedBlanks(d.arrays[k], made.items, first + ElementsInFront(d, data, k),
                      |ValuesAt(data, d.arrays[k].binding)|)
  }

  ghost predicate MadeArrays(d: Definition, data: Json, first: nat, arrays: seq<ArrayState>) {
    |arrays| == |d.arrays| && forall k | 0 <= k < |d.arrays| :: MadeArray(d, data, first, arrays[k], k)
  }

  lemma {:induction false} RenewedAreCounted(d: Definition, data: Json, k: nat)
    requires k <= |d.arrays|
    ensures NewBefore(d.arrays, RenewAll(|d.arrays|), data, k) == ElementsInFront(d, data, k)
    decreases k
  {
    hide ValuesAt;
    if k > 0 {
      RenewedAreCounted(d, data, k - 1);
    }
  }

  lemma RenewedIsMade(d: Definition, data: Json, first: nat, k: nat)
    requires k < |d.arrays|
    ensures MadeArray(d, data, first, ArrayState(PlannedItems(d.arrays[k], [], Renew, data,
                                                              first + ElementsInFront(d, data, k)).0, false), k)
  {
    hide ValuesAt, ElementsInFront;
  }

  lemma FreshArraysAreMade(d: Definition, data: Json, next: nat)
    ensures var (arrays, n) := FreshArrays(d, data, next);
            MadeArrays(d, data, next, arrays) && n == next + ElementsInFront(d, data, |d.arrays|)
  {
    hide MadeArray, FreshArrays, ElementsInFront;
    FreshArraysAreCounted(d, data, next);
    forall k | 0 <= k < |d.arrays| ensures MadeArray(d, data, next, FreshArrays(d, data, next).0[k], k) {
      FreshArrayIsMade(d, data, next, k);
    }
  }

  lemma FreshArraysAreCounted(d: Definition, data: Json, next: nat)
    ensures FreshArrays(d, data, next).1 == next + ElementsInFront(d, data, |d.arrays|)
  {
    hide Planned, ValuesAt, NewBefore, ElementsInFront;
    PlannedTotal(d.arrays, EmptyArrays(|d.arrays|), RenewAll(|d.arrays|), data, next);
    RenewedAreCounted(d, data, |d.arrays|);
  }

  lemma FreshArrayIsMade(d: Definition, data: Json, next: nat, k: nat)
    requires k < |d.arrays|
    ensures MadeArray(d, data, next, FreshArrays(d, data, next).0[k], k)
  {
    hide MadeArray, Planned, ValuesAt, NewBefore, ElementsInFront, PlannedItems;
    PlannedArray(d.arrays, EmptyArrays(|d.arrays|), RenewAll(|d.arrays|), data, next, k);
    RenewedAreCounted(d, data, k);
    RenewedIsMade(d, data, next, k);
  }

  /** A form is created from an object and from nothing else: both revisions are 0 and identities start at 1. */
  lemma CreationIsExact(d: Definition, data: Json)
    ensures CreateForm(d, data).Ok? <==> data.Object?
    ensures data.Object? ==>
              var s := CreateForm(d, data).value;
              && s == State(s.edits, s.arrays, 1 + ElementsInFront(d, data, |d.arrays|), LiveIds(s.arrays), data, data, [],
                            false, 0, 0)
              && NothingTyped(s.edits, |d.controls|) && MadeArrays(d, data, 1, s.arrays)
  {
    FreshArraysAreMade(d, data, 1);
    hide FreshArrays, MadeArrays, ElementsInFront;
  }

  /** A form is reinitialised from an object and from nothing else; identities go on where they were, both revisions
  move by one, and equal data keeps its spelling. */
  lemma ReinitializingIsExact(d: Definition, s: State, data: Json)
    requires Shaped(d, s)
    ensures var (t, r) := Reinitialize(d, s, data);
            if !data.Object? then t == s && r == Err(FormDataMustBeObject)
            else
              && r == Ok(())
              && t == State(t.edits, t.arrays, s.nextIdentity + ElementsInFront(d, data, |d.arrays|), LiveIds(t.arrays),
                            data, if JsonEqual(s.data, data) then s.data else data, [], false, s.dataRevision + 1,
                            s.stateRevision + 1)
              && NothingTyped(t.edits, |d.controls|) && MadeArrays(d, data, s.nextIdentity, t.arrays)
  {
    FreshArraysAreMade(d, data, s.nextIdentity);
    hide FreshArrays, MadeArrays, ElementsInFront, JsonEqual;
  }

  // ----------------------------------------------------------------------------- resetting

  /** A reset keeps data and findings when the data equals the baseline, and otherwise restores it and drops them; the
  items are the baseline's, blank. The state revision moves exactly when anything changes at all. */
  lemma ResettingIsExact(d: Definition, s: State)
    requires Sound(d, s)
    ensures var t, equal := Reset(d, s), JsonEqual(s.data, s.baseline);
            && t == s.(edits := t.edits, arrays := t.arrays, submissionAttempted := false,
                       data := if equal then s.data else s.baseline, batches := if equal then s.batches else [],
                       dataRevision := if equal then s.dataRevision else s.dataRevision + 1,
                       stateRevision := if t.(stateRevision := s.stateRevision) == s then s.stateRevision
                                        else s.stateRevision + 1)
            && NothingTyped(t.edits, |d.controls|) && |t.arrays| == |d.arrays|
            && forall k | 0 <= k < |d.arrays| ::
                 && !t.arrays[k].touched && |t.arrays[k].items| == |s.baselineIds[k]|
                 && forall i | 0 <= i < |s.baselineIds[k]| ::
                      IsBlank(t.arrays[k].items[i], s.baselineIds[k][i], |d.arrays[k].controls|)
  {
    var t := Reset(d, s);
    if t.(stateRevision := s.stateRevision) == s {
      ResettingNothing(d, s);
    }
    if t.stateRevision == s.stateRevision {
      QuietResetsChangeNothing(d, s);
    }
    hide JsonEqual, LiveIds, AnyEdited, AnyTouched;
  }

  /** A form that already is as a reset would leave it is left alone. */
  lemma ResettingNothing(d: Definition, s: State)
    requires Sound(d, s) && Reset(d, s).(stateRevision := s.stateRevision) == s
    ensures Reset(d, s) == s
  {
    var t := Reset(d, s);
    assert s.edits == UntouchedEdits(|d.controls|) && s.arrays == BaselineArrays(d, s) && !s.submissionAttempted;
    assert t.dataRevision == s.dataRevision;
    forall k | 0 <= k < |s.arrays| ensures Ids(s.arrays[k].items) == s.baselineIds[k] {
    }
    assert LiveIds(s.arrays) == s.baselineIds;
    hide JsonEqual, LiveIds, Aligned, Identified;
    assert !AnyEdited(s.edits);
    assert !AnyTouched(s.arrays);
  }

  // ---------------------------------------------------------------------------- submitting

  /** Input that could be read is dropped from the buffers; what could not, and what was touched, stays. */
  ghost predicate Settled(former: seq<EditState>, edits: seq<EditState>) {
    && |edits| == |former|
    && forall c | 0 <= c < |former| ::
         edits[c] == EditState(if former[c].blocker.None? then None else former[c].buffer, former[c].blocker,
                               former[c].touched)
  }

  ghost predicate SettledArray(former: ArrayState, now: ArrayState) {
    && now.touched == former.touched && |now.items| == |former.items|
    && forall i | 0 <= i < |former.items| ::
         now.items[i].identity == former.items[i].identity && Settled(former.items[i].edits, now.items[i].edits)
  }

  /** Something keeps the form from being submitted: a text that could not be read, or a blocking finding. */
  ghost predicate IsBlocked(d: Definition, s: State)
    requires Shaped(d, s)
  {
    || (exists place: Place :: Exists(d, s, place) && EditAt(d, s, place).blocker.Some?)
    || exists batch, f :: batch in s.batches && f in batch.findings && f.blocking
  }

  lemma BlockedHasBlockers(d: Definition, s: State)
    requires Shaped(d, s)
    ensures Blockers(d, s) != [] <==> IsBlocked(d, s)
  {
    hide Blockers;
    if Blockers(d, s) != [] {
      var b := Blockers(d, s)[0];
      assert b in Blockers(d, s);
      BlockersAreExact(d, s, b);
    }
    if place: Place :| Exists(d, s, place) && EditAt(d, s, place).blocker.Some? {
      var b := ParseBlocked(BindingOf(d, place), EditAt(d, s, place).blocker.value);
      assert PlaceBlocks(d, s, place, b);
      BlockersAreExact(d, s, b);
    }
    if batch, f :| batch in s.batches && f in batch.findings && f.blocking {
      var b := ExternallyBlocked(batch.source, f.pointer, f.code);
      assert BatchBlocks(batch, b);
      BlockersAreExact(d, s, b);
    }
  }

  /** Submitting succeeds exactly when nothing blocks, and then hands out the data with its revision. Either way the
  attempt is recorded, and the state revision moves exactly when anything changes at all. */
  lemma SubmissionTakesEffect(d: Definition, s: State)
    requires Shaped(d, s)
    ensures var (t, r) := PrepareSubmission(d, s);
            && (r.Ok? <==> !IsBlocked(d, s))
            && (r.Ok? ==> r.value == Snapshot(s.data, s.dataRevision))
            && (r.Err? ==> r.error == Blockers(d, s))
            && t == s.(edits := t.edits, arrays := t.arrays, submissionAttempted := true,
                       stateRevision := if t.(stateRevision := s.stateRevision) == s then s.stateRevision
                                        else s.stateRevision + 1)
            && Settled(s.edits, t.edits) && |t.arrays| == |s.arrays|
            && forall k | 0 <= k < |s.arrays| :: SettledArray(s.arrays[k], t.arrays[k])
  {
    BlockedHasBlockers(d, s);
    hide Blockers, IsBlocked;
  }

  // ------------------------------------------------------------------------ blockers in order

  ghost predicate InOrder(places: seq<(nat, nat, nat)>) {
    forall a, b | 0 <= a < b < |places| :: Before(places[a], places[b])
  }

  ghost predicate Before(p: (nat, nat, nat), q: (nat, nat, nat)) {
    p.0 < q.0 || (p.0 == q.0 && (p.1 < q.1 || (p.1 == q.1 && p.2 < q.2)))
  }

  /** The controls whose texts could not be read, in order, give the blockers. */
  ghost predicate GiveBlockers(controls: seq<ControlDefinition>, edits: seq<EditState>, base: Pointer, from: seq<nat>,
                               blockers: seq<Blocker>)
    requires |controls| == |edits|
  {
    && |from| == |blockers| && (forall a, b | 0 <= a < b < |from| :: from[a] < from[b])
    && (forall a | 0 <= a < |from| :: EditBlocks(controls, edits, base, from[a], blockers[a]))
    && forall c | 0 <= c < |edits| && edits[c].blocker.Some? :: c in from
  }

  lemma OneMoreEditGives(controls: seq<ControlDefinition>, edits: seq<EditState>, base: Pointer, before: seq<nat>,
                         front: seq<Blocker>)
    requires |controls| == |edits| && controls != []
    requires GiveBlockers(controls[..|controls| - 1], edits[..|controls| - 1], base, before, front)
    ensures var last := |controls| - 1;
            if edits[last].blocker.None? then GiveBlockers(controls, edits, base, before, front)
            else GiveBlockers(controls, edits, base, before + [last],
                              front + [ParseBlocked(base + controls[last].binding, edits[last].blocker.value)])
  {
    var last := |controls| - 1;
    var from := if edits[last].blocker.None? then before else before + [last];
    forall a | 0 <= a < |before| ensures before[a] < last && EditBlocks(controls, edits, base, before[a], front[a]) {
      assert EditBlocks(controls[..last], edits[..last], base, before[a], front[a]);
    }
    forall c | 0 <= c < |edits| && edits[c].blocker.Some? ensures c in from {
      if c < last {
        assert edits[..last][c] == edits[c];
        assert c in before;
      } else {
        assert from[|before|] == c;
      }
    }
  }

  lemma {:induction false} EditsGiveBlockers(controls: seq<ControlDefinition>, edits: seq<EditState>, base: Pointer)
    returns (from: seq<nat>)
    requires |controls| == |edits|
    ensures GiveBlockers(controls, edits, base, from, EditBlockers(controls, edits, base))
    decreases |controls|
  {
    if controls == [] {
      from := [];
    } else {
      hide GiveBlockers, EditBlockers;
      var last := |controls| - 1;
      var before := EditsGiveBlockers(controls[..last], edits[..last], base);
      EditBlockersEnd(controls, edits, base);
      OneMoreEditGives(controls, edits, base, before, EditBlockers(controls[..last], edits[..last], base));
      from := if edits[last].blocker.None? then before else before + [last];
      assert EditBlockers(controls[..last], edits[..last], base) + [] == EditBlockers(controls[..last], edits[..last], base);
    }
  }

  /** Items give their blockers one after the other. */
  ghost predicate ItemsGive(list: ArrayDefinition, items: seq<Item>, from: seq<(nat, nat, nat)>, blockers: seq<Blocker>)
    requires ItemsShaped(items, |list.controls|)
  {
    && |from| == |blockers| && InOrder(from)
    && (forall a | 0 <= a < |from| ::
          && from[a].0 == 0 && from[a].1 < |items|
          && EditBlocks(list.controls, items[from[a].1].edits, ItemPointer(list.binding, from[a].1), from[a].2, blockers[a]))
    && forall i, c | 0 <= i < |items| && 0 <= c < |items[i].edits| && items[i].edits[c].blocker.Some? :: (0, i, c) in from
  }

  lemma {:induction false} ItemsGiveBlockers(list: ArrayDefinition, items: seq<Item>) returns (from: seq<(nat, nat, nat)>)
    requires ItemsShaped(items, |list.controls|)
    ensures ItemsGive(list, items, from, ItemBlockers(list, items))
    decreases |items|
  {
    if items == [] {
      from := [];
    } else {
      var last := |items| - 1;
      var before := ItemsGiveBlockers(list, items[..last]);
      var own := EditsGiveBlockers(list.controls, items[last].edits, ItemPointer(list.binding, last));
      from := before + seq(|own|, a requires 0 <= a < |own| => (0, last, own[a]));
      OneMoreItemGives(list, items, before, own, ItemBlockers(list, items[..last]),
                       EditBlockers(list.controls, items[last].edits, ItemPointer(list.binding, last)));
    }
  }

  lemma OneMoreItemGives(list: ArrayDefinition, items: seq<Item>, before: seq<(nat, nat, nat)>, own: seq<nat>,
                         front: seq<Blocker>, blockers: seq<Blocker>)
    requires items != [] && ItemsShaped(items, |list.controls|)
    requires ItemsGive(list, items[..|items| - 1], before, front)
    requires GiveBlockers(list.controls, items[|items| - 1].edits, ItemPointer(list.binding, |items| - 1), own, blockers)
    ensures ItemsGive(list, items, before + seq(|own|, a requires 0 <= a < |own| => (0, |items| - 1, own[a])),
                      front + blockers)
  {
    hide EditBlocks, ItemPointer;
    var last := |items| - 1;
    var from := before + seq(|own|, a requires 0 <= a < |own| => (0, last, own[a]));
    forall i, c | 0 <= i < |items| && 0 <= c < |items[i].edits| && items[i].edits[c].blocker.Some?
      ensures (0, i, c) in from
    {
      if i < last {
        assert items[..last][i] == items[i];
        assert (0, i, c) in before;
      } else {
        var a :| 0 <= a < |own| && own[a] == c;
        assert from[|before| + a] == (0, i, c);
      }
    }
  }
  ghost predicate ArraysGive(lists: seq<ArrayDefinition>, arrays: seq<ArrayState>, from: seq<(nat, nat, nat)>,
                             blockers: seq<Blocker>)
    requires |lists| == |arrays| && AllShaped(lists, arrays)
  {
    && |from| == |blockers| && InOrder(from)
    && (forall a | 0 <= a < |from| :: ArrayGives(lists, arrays, from[a], blockers[a]))
    && forall k: nat, i: nat, c: nat | IsUnread(arrays, k, i, c) :: (k, i, c) in from
  }

  ghost predicate ArrayGives(lists: seq<ArrayDefinition>, arrays: seq<ArrayState>, at: (nat, nat, nat), blocker: Blocker)
    requires |lists| == |arrays|
  {
    && at.0 < |arrays| && at.1 < |arrays[at.0].items| && ItemsShaped(arrays[at.0].items, |lists[at.0].controls|)
    && EditBlocks(lists[at.0].controls, arrays[at.0].items[at.1].edits, ItemPointer(lists[at.0].binding, at.1), at.2,
                  blocker)
  }

  ghost predicate IsUnread(arrays: seq<ArrayState>, k: nat, i: nat, c: nat) {
    && k < |arrays| && i < |arrays[k].items| && c < |arrays[k].items[i].edits|
    && arrays[k].items[i].edits[c].blocker.Some?
  }

  lemma {:induction false} ArraysGiveBlockers(lists: seq<ArrayDefinition>, arrays: seq<ArrayState>)
    returns (from: seq<(nat, nat, nat)>)
    requires |lists| == |arrays| && AllShaped(lists, arrays)
    ensures ArraysGive(lists, arrays, from, ArrayBlockers(lists, arrays))
    decreases |lists|
  {
    if lists == [] {
      from := [];
    } else {
      hide ArraysGive, ItemsGive, ItemBlockers;
      var last := |lists| - 1;
      var before := ArraysGiveBlockers(lists[..last], arrays[..last]);
      var own := ItemsGiveBlockers(lists[last], arrays[last].items);
      from := before + Behind(last, own);
      OneMoreArrayGives(lists, arrays, before, own, ArrayBlockers(lists[..last], arrays[..last]),
                        ItemBlockers(lists[last], arrays[last].items));
    }
  }

  /** The places of one array, as places of all. */
  ghost function Behind(k: nat, own: seq<(nat, nat, nat)>): (places: seq<(nat, nat, nat)>)
    ensures |places| == |own| && forall a | 0 <= a < |own| :: places[a] == (k, own[a].1, own[a].2)
  {
    seq(|own|, a requires 0 <= a < |own| => (k, own[a].1, own[a].2))
  }

  lemma OrderedBehind(before: seq<(nat, nat, nat)>, own: seq<(nat, nat, nat)>, last: nat)
    requires InOrder(before) && InOrder(own) && forall a | 0 <= a < |before| :: before[a].0 < last
    requires forall a | 0 <= a < |own| :: own[a].0 == 0
    ensures InOrder(before + Behind(last, own))
  {
    var moved := Behind(last, own);
    forall a, b | 0 <= a < b < |before + moved| ensures Before((before + moved)[a], (before + moved)[b]) {
      if a >= |before| {
        assert Before(own[a - |before|], own[b - |before|]);
      } else if b < |before| {
        assert Before(before[a], before[b]);
      }
    }
  }

  lemma OneMoreArrayGives(lists: seq<ArrayDefinition>, arrays: seq<ArrayState>, before: seq<(nat, nat, nat)>,
                          own: seq<(nat, nat, nat)>, front: seq<Blocker>, blockers: seq<Blocker>)
    requires |lists| == |arrays| && AllShaped(lists, arrays) && lists != []
    requires ArraysGive(lists[..|lists| - 1], arrays[..|lists| - 1], before, front)
    requires ItemsGive(lists[|lists| - 1], arrays[|lists| - 1].items, own, blockers)
    ensures ArraysGive(lists, arrays, before + Behind(|lists| - 1, own), front + blockers)
  {
    hide EditBlocks, ItemPointer, InOrder, ArrayGives, AllShaped, ItemsShaped;
    var last := |lists| - 1;
    forall a | 0 <= a < |before| ensures ArrayGives(lists, arrays, before[a], front[a]) && before[a].0 < last {
      GivenInFront(lists, arrays, before[a], front[a]);
    }
    forall a | 0 <= a < |own|
      ensures own[a].0 == 0 && ArrayGives(lists, arrays, (last, own[a].1, own[a].2), blockers[a])
    {
      GivenByLast(lists, arrays, own, blockers, a);
    }
    OrderedBehind(before, own, last);
    forall k: nat, i: nat, c: nat | IsUnread(arrays, k, i, c) ensures (k, i, c) in before + Behind(last, own) {
      if k < last {
        assert IsUnread(arrays[..last], k, i, c);
      } else {
        UnreadInLast(lists, arrays, own, blockers, i, c);
      }
    }
  }

  lemma GivenInFront(lists: seq<ArrayDefinition>, arrays: seq<ArrayState>, at: (nat, nat, nat), blocker: Blocker)
    requires |lists| == |arrays| && lists != []
    requires ArrayGives(lists[..|lists| - 1], arrays[..|lists| - 1], at, blocker)
    ensures ArrayGives(lists, arrays, at, blocker) && at.0 < |lists| - 1
  {
    hide EditBlocks, ItemPointer, ItemsShaped;
  }

  lemma GivenByLast(lists: seq<ArrayDefinition>, arrays: seq<ArrayState>, own: seq<(nat, nat, nat)>,
                    blockers: seq<Blocker>, a: nat)
    requires |lists| == |arrays| && AllShaped(lists, arrays) && lists != [] && a < |own|
    requires ItemsGive(lists[|lists| - 1], arrays[|lists| - 1].items, own, blockers)
    ensures a < |blockers| && own[a].0 == 0
    ensures ArrayGives(lists, arrays, (|lists| - 1, own[a].1, own[a].2), blockers[a])
  {
    hide EditBlocks, ItemPointer, ItemsShaped, InOrder;
  }

  lemma UnreadInLast(lists: seq<ArrayDefinition>, arrays: seq<ArrayState>, own: seq<(nat, nat, nat)>,
                     blockers: seq<Blocker>, i: nat, c: nat)
    requires |lists| == |arrays| && AllShaped(lists, arrays) && lists != []
    requires ItemsGive(lists[|lists| - 1], arrays[|lists| - 1].items, own, blockers)
    requires IsUnread(arrays, |lists| - 1, i, c)
    ensures (|lists| - 1, i, c) in Behind(|lists| - 1, own)
  {
    hide EditBlocks, ItemPointer, ItemsShaped, InOrder, Behind;
    assert (0, i, c) in own;
    var a :| 0 <= a < |own| && own[a] == (0, i, c);
    assert Behind(|lists| - 1, own)[a] == (|lists| - 1, i, c);
  }

  /** The findings that block, batch after batch and in their order there. */
  ghost predicate FindingsGive(batches: seq<Batch>, from: seq<(nat, nat, nat)>, blockers: seq<Blocker>) {
    && |from| == |blockers| && InOrder(from)
    && (forall a | 0 <= a < |from| :: FindingGives(batches, from[a], blockers[a]))
    && forall b, i | 0 <= b < |batches| && 0 <= i < |batches[b].findings| && batches[b].findings[i].blocking ::
         (b, i, 0) in from
  }

  ghost predicate FindingGives(batches: seq<Batch>, at: (nat, nat, nat), blocker: Blocker) {
    && at.0 < |batches| && at.1 < |batches[at.0].findings| && at.2 == 0
    && var f := batches[at.0].findings[at.1];
       f.blocking && blocker == ExternallyBlocked(batches[at.0].source, f.pointer, f.code)
  }

  ghost predicate OneBatchGives(batch: Batch, count: nat, from: seq<nat>, blockers: seq<Blocker>) {
    && count <= |batch.findings| && |from| == |blockers| && (forall a, b | 0 <= a < b < |from| :: from[a] < from[b])
    && (forall a | 0 <= a < |from| ::
          && from[a] < count && batch.findings[from[a]].blocking
          && blockers[a] == ExternallyBlocked(batch.source, batch.findings[from[a]].pointer, batch.findings[from[a]].code))
    && forall i | 0 <= i < count && batch.findings[i].blocking :: i in from
  }

  lemma {:induction false} OneBatchGivesBlockers(batch: Batch, count: nat) returns (from: seq<nat>)
    requires count <= |batch.findings|
    ensures OneBatchGives(batch, count, from, FindingBlockers(batch.source, batch.findings[..count]))
    decreases count
  {
    if count == 0 {
      from := [];
    } else {
      var before := OneBatchGivesBlockers(batch, count - 1);
      assert batch.findings[..count][..count - 1] == batch.findings[..count - 1];
      from := before + if batch.findings[count - 1].blocking then [count - 1] else [];
      forall i | 0 <= i < count && batch.findings[i].blocking ensures i in from {
        if i < count - 1 {
          assert i in before;
        } else {
          assert from[|before|] == i;
        }
      }
    }
  }

  lemma {:induction false} FindingsGiveBlockers(batches: seq<Batch>) returns (from: seq<(nat, nat, nat)>)
    ensures FindingsGive(batches, from, BatchBlockers(batches))
    decreases |batches|
  {
    if batches == [] {
      from := [];
    } else {
      hide FindingBlockers, FindingsGive, OneBatchGives;
      var last := |batches| - 1;
      var before := FindingsGiveBlockers(batches[..last]);
      var own := OneBatchGivesBlockers(batches[last], |batches[last].findings|);
      assert batches[last].findings[..|batches[last].findings|] == batches[last].findings;
      from := before + seq(|own|, a requires 0 <= a < |own| => (last, own[a], 0));
      OneMoreBatchGives(batches, before, own, BatchBlockers(batches[..last]),
                        FindingBlockers(batches[last].source, batches[last].findings));
    }
  }

  lemma OneMoreBatchGives(batches: seq<Batch>, before: seq<(nat, nat, nat)>, own: seq<nat>, front: seq<Blocker>,
                          blockers: seq<Blocker>)
    requires batches != [] && FindingsGive(batches[..|batches| - 1], before, front)
    requires OneBatchGives(batches[|batches| - 1], |batches[|batches| - 1].findings|, own, blockers)
    ensures FindingsGive(batches, before + seq(|own|, a requires 0 <= a < |own| => (|batches| - 1, own[a], 0)),
                         front + blockers)
  {
    var last := |batches| - 1;
    var more := seq(|own|, a requires 0 <= a < |own| => (last, own[a], 0));
    OldGive(batches, before, front);
    NewGive(batches, own, blockers);
    JoinedInOrder(before, more, last);
    hide FindingGives, InOrder;
    forall b, i | 0 <= b < |batches| && 0 <= i < |batches[b].findings| && batches[b].findings[i].blocking
      ensures (b, i, 0) in before + more
    {
      if b < last {
        assert batches[..last][b] == batches[b];
        assert (b, i, 0) in before;
      } else {
        var a :| 0 <= a < |own| && own[a] == i;
        assert more[a] == (b, i, 0);
      }
    }
  }

  lemma OldGive(batches: seq<Batch>, before: seq<(nat, nat, nat)>, front: seq<Blocker>)
    requires batches != [] && FindingsGive(batches[..|batches| - 1], before, front)
    ensures forall a | 0 <= a < |before| :: FindingGives(batches, before[a], front[a]) && before[a].0 < |batches| - 1
  {
    forall a | 0 <= a < |before| ensures FindingGives(batches, before[a], front[a]) && before[a].0 < |batches| - 1 {
      assert FindingGives(batches[..|batches| - 1], before[a], front[a]);
    }
  }

  lemma NewGive(batches: seq<Batch>, own: seq<nat>, blockers: seq<Blocker>)
    requires batches != []
    requires OneBatchGives(batches[|batches| - 1], |batches[|batches| - 1].findings|, own, blockers)
    ensures forall a | 0 <= a < |own| :: FindingGives(batches, (|batches| - 1, own[a], 0), blockers[a])
    ensures InOrder(seq(|own|, a requires 0 <= a < |own| => (|batches| - 1, own[a], 0)))
  {
  }

  lemma JoinedInOrder(before: seq<(nat, nat, nat)>, more: seq<(nat, nat, nat)>, last: nat)
    requires InOrder(before) && InOrder(more)
    requires forall a | 0 <= a < |before| :: before[a].0 < last
    requires forall a | 0 <= a < |more| :: more[a].0 == last
    ensures InOrder(before + more)
  {
  }

  /** The blockers are listed in order, each once: controls on their own, items of the arrays, findings. */
  lemma BlockersAreInOrder(d: Definition, s: State)
    returns (alone: seq<nat>, inItems: seq<(nat, nat, nat)>, found: seq<(nat, nat, nat)>, first: nat, second: nat)
    requires Shaped(d, s)
    ensures AllShaped(d.arrays, s.arrays) && first <= second <= |Blockers(d, s)|
    ensures GiveBlockers(d.controls, s.edits, [], alone, Blockers(d, s)[..first])
    ensures ArraysGive(d.arrays, s.arrays, inItems, Blockers(d, s)[first..second])
    ensures FindingsGive(s.batches, found, Blockers(d, s)[second..])
  {
    assert AllShaped(d.arrays, s.arrays);
    hide GiveBlockers, ArraysGive, FindingsGive, EditBlockers, ArrayBlockers, BatchBlockers;
    alone := EditsGiveBlockers(d.controls, s.edits, []);
    inItems := ArraysGiveBlockers(d.arrays, s.arrays);
    found := FindingsGiveBlockers(s.batches);
    first := |EditBlockers(d.controls, s.edits, [])|;
    second := first + |ArrayBlockers(d.arrays, s.arrays)|;
    assert Blockers(d, s)[..first] == EditBlockers(d.controls, s.edits, []);
    assert Blockers(d, s)[first..second] == ArrayBlockers(d.arrays, s.arrays);
    assert Blockers(d, s)[second..] == BatchBlockers(s.batches);
  }

  // ----------------------------------------------------------------------------- reporting

  /** A report is accepted exactly when it is about the current data; a refused one changes nothing and is told both
  revisions. An accepted one changes the batches at most, and the state revision exactly when it does. */
  lemma ReportsAreCurrent(s: State, source: Bytes, dataRevision: nat, findings: seq<Finding>)
    ensures var (t, r) := ApplyFindings(s, source, dataRevision, findings);
            && (r.Ok? <==> dataRevision == s.dataRevision)
            && (r.Err? ==> t == s && r.error == StaleDataRevision(s.dataRevision, dataRevision))
            && t == s.(batches := t.batches,
                       stateRevision := if t.batches == s.batches then s.stateRevision else s.stateRevision + 1)
  {
    var i := BatchIndex(s.batches, source);
    var batch := Batch(source, dataRevision, Normalized(findings));
    InsertedBatchIsOneMore(s.batches, batch);
    if i.Some? {
      assert s.batches[i.value := batch][i.value] == batch;
    }
    hide Normalized, InsertBatch, BatchIndex;
  }

  lemma {:induction false} InsertedBatchIsOneMore(batches: seq<Batch>, batch: Batch)
    ensures |InsertBatch(batches, batch)| == |batches| + 1
  {
    if batches != [] {
      InsertedBatchIsOneMore(batches[1..], batch);
    }
  }

  /** A report about a form, however late it comes, is accepted exactly while the data has not changed since; then it is
  about data equal to what was looked at. */
  lemma LateReportsAreJudged(d: Definition, s: State, commands: seq<Command>, source: Bytes, findings: seq<Finding>)
    requires WellFormedDefinition(d) && Sound(d, s)
    ensures var t := Run(d, s, commands);
            var (u, r) := ApplyFindings(t, source, s.dataRevision, findings);
            && (r.Ok? <==> t.dataRevision == s.dataRevision) && (r.Ok? ==> JsonEqual(s.data, u.data))
            && (r.Err? ==> u == t && r.error == StaleDataRevision(t.dataRevision, s.dataRevision)
                           && s.dataRevision < t.dataRevision)
  {
    RunsAreTruthful(d, s, commands);
    ReportsAreCurrent(Run(d, s, commands), source, s.dataRevision, findings);
    hide Run, ApplyFindings, JsonEqual, Sound;
  }
}
