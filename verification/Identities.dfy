/** Identities over whole runs: none is handed out twice, and one that is gone stays gone. */
module Identities {
  import opened Bytes
  import opened Json
  import opened FormModel
  import opened ArrayOperations
  import opened Toggles
  import opened ControlEdits
  import opened Structures
  import opened Lifecycle
  import opened ExternalFindings
  import opened HostTransactions
  import opened TransactionEffects
  import opened FormRuns
  import opened Effects

  /** Every identity in use later was in use before, in the same array, or has been handed out since. */
  ghost predicate NothingReturns(s: State, t: State) {
    && s.nextIdentity <= t.nextIdentity && |t.arrays| == |s.arrays|
    && forall k, i | 0 <= k < |s.arrays| && 0 <= i < |t.arrays[k].items| ::
         t.arrays[k].items[i].identity in Ids(s.arrays[k].items) || s.nextIdentity <= t.arrays[k].items[i].identity
  }

  lemma SameIdentities(s: State, t: State)
    requires LiveIds(t.arrays) == LiveIds(s.arrays) && t.nextIdentity == s.nextIdentity
    ensures NothingReturns(s, t)
  {
    assert |LiveIds(t.arrays)| == |LiveIds(s.arrays)|;
    forall k, i | 0 <= k < |s.arrays| && 0 <= i < |t.arrays[k].items|
      ensures t.arrays[k].items[i].identity in Ids(s.arrays[k].items)
    {
      assert LiveIds(t.arrays)[k] == LiveIds(s.arrays)[k];
      assert Ids(t.arrays[k].items)[i] == t.arrays[k].items[i].identity;
    }
  }

  lemma RowsKeepIdentities(d: Definition, s: State, k: nat, rows: seq<Row>, next: nat, t: State)
    requires Shaped(d, s) && Aligned(d, s) && k < |d.arrays| && s.nextIdentity <= next
    requires DrawnFrom(d.arrays[k], Rows(d, s, k), rows, s.nextIdentity, next)
    requires t.arrays == WithRows(d, s, k, rows, next).arrays && t.nextIdentity == next
    ensures NothingReturns(s, t)
  {
    forall l, i | 0 <= l < |s.arrays| && 0 <= i < |t.arrays[l].items|
      ensures t.arrays[l].items[i].identity in Ids(s.arrays[l].items) || s.nextIdentity <= t.arrays[l].items[i].identity
    {
      if l != k {
        assert Ids(s.arrays[l].items)[i] == t.arrays[l].items[i].identity;
      } else if rows[i] in Rows(d, s, k) {
        var j :| 0 <= j < |Rows(d, s, k)| && Rows(d, s, k)[j] == rows[i];
        assert Ids(s.arrays[k].items)[j] == rows[i].identity;
      }
      hide ValuesAt, SetBound;
    }
  }

  lemma InsertingKeepsIdentities(d: Definition, s: State, k: nat, i: nat, value: Json)
    requires Sound(d, s) && k < |d.arrays| && i <= |s.arrays[k].items|
    ensures NothingReturns(s, InsertedRow(d, s, k, i, value))
  {
    var rows := InsertAt(Rows(d, s, k), i, FreshRow(d.arrays[k], s.nextIdentity, value));
    RowsAreDistinct(d, s, k);
    InsertedIsDrawn(d.arrays[k], Rows(d, s, k), i, value, s.nextIdentity);
    hide DrawnFrom, DistinctRows, WithRows;
    RowsKeepIdentities(d, s, k, rows, s.nextIdentity + 1, InsertedRow(d, s, k, i, value));
  }

  lemma ItemCommandsKeepIdentities(d: Definition, s: State, command: Command)
    requires Sound(d, s) && OnItems(command)
    ensures NothingReturns(s, Apply(d, s, command))
  {
    SameIdentities(s, s);
    hide NothingReturns, LiveIds, InsertedRow;
    match command
    case AppendItem(binding) =>
      if Append(d, s, binding).1.Ok? {
        var k := ArrayIndex(d.arrays, binding).value;
        InsertingKeepsIdentities(d, s, k, |s.arrays[k].items|, d.arrays[k].creationSeed);
      }
    case InsertItem(binding, before) =>
      if InsertBefore(d, s, binding, before).1.Ok? {
        var k := ArrayIndex(d.arrays, binding).value;
        InsertingKeepsIdentities(d, s, k, ItemIndex(s.arrays[k].items, before).value, d.arrays[k].creationSeed);
      }
    case RemoveItem(binding, identity) => RemovingKeepsIdentities(d, s, binding, identity);
    case MoveItem(binding, identity, up) => MovingKeepsIdentities(d, s, binding, identity, up);
    case ToggleChoice(binding, value) => TogglingKeepsIdentities(d, s, binding, value);
  }

  lemma RemovingKeepsIdentities(d: Definition, s: State, binding: Pointer, identity: nat)
    requires Sound(d, s)
    ensures NothingReturns(s, Remove(d, s, binding, identity).0)
  {
    if Remove(d, s, binding, identity).1.Ok? {
      var k := ArrayIndex(d.arrays, binding).value;
      var i := ItemIndex(s.arrays[k].items, identity).value;
      RowsAreDistinct(d, s, k);
      RemovedIsDrawn(d.arrays[k], Rows(d, s, k), i, s.nextIdentity);
      hide DrawnFrom, DistinctRows, WithRows, NothingReturns;
      RowsKeepIdentities(d, s, k, RemoveAt(Rows(d, s, k), i), s.nextIdentity, Remove(d, s, binding, identity).0);
    } else {
      SameIdentities(s, s);
    }
  }

  lemma MovingKeepsIdentities(d: Definition, s: State, binding: Pointer, identity: nat, up: bool)
    requires Sound(d, s)
    ensures NothingReturns(s, Move(d, s, binding, identity, up).0)
  {
    var r := Move(d, s, binding, identity, up);
    if r.1.Ok? {
      var k := ArrayIndex(d.arrays, binding).value;
      RowsAreDistinct(d, s, k);
      SwappedIsDrawn(d.arrays[k], Rows(d, s, k), r.1.value.from, r.1.value.to, s.nextIdentity);
      hide DrawnFrom, DistinctRows, WithRows, NothingReturns, JsonEqual;
      RowsKeepIdentities(d, s, k, SwapAt(Rows(d, s, k), r.1.value.from, r.1.value.to), s.nextIdentity, r.0);
    } else {
      SameIdentities(s, s);
    }
  }

  lemma TogglingKeepsIdentities(d: Definition, s: State, binding: Pointer, value: Json)
    requires Sound(d, s)
    ensures NothingReturns(s, Toggle(d, s, binding, value).0)
  {
    if Toggle(d, s, binding, value).1.Ok? {
      ToggleUnfolds(d, s, binding, value);
      var k := ArrayIndex(d.arrays, binding).value;
      var o := OptionIndex(d.arrays[k].Options(), value).value;
      SoundRowsAreDistinct(d, s, k);
      ToggledIsDrawnUpTo(d.arrays[k], Rows(d, s, k), o, s.nextIdentity);
      hide Toggle, ToggledRows, DrawnFrom, DistinctRows, WithRows, NothingReturns, Carries, OptionIndex, CanToggle;
      var next := if Carries(Rows(d, s, k), d.arrays[k].Options()[o]) then s.nextIdentity else s.nextIdentity + 1;
      ToggledStateKeepsNext(d, s, k, ToggledRows(d.arrays[k], Rows(d, s, k), o, s.nextIdentity), next);
      RowsKeepIdentities(d, s, k, ToggledRows(d.arrays[k], Rows(d, s, k), o, s.nextIdentity), next,
                         Toggle(d, s, binding, value).0);
    } else {
      SameIdentities(s, s);
    }
  }

  lemma ToggledStateKeepsNext(d: Definition, s: State, k: nat, rows: seq<Row>, next: nat)
    requires k < |d.arrays| && k < |s.arrays|
    ensures WithRows(d, s, k, rows, next).nextIdentity == next
  {
  }

  lemma ControlCommandsKeepIdentities(d: Definition, s: State, command: Command)
    requires Sound(d, s) && (OnControls(command) || command.Report?)
    ensures NothingReturns(s, Apply(d, s, command))
  {
    hide NothingReturns, LiveIds, EditText, SetValue, Blur, PrepareSubmission, ApplyFindings;
    match command
    case TypeText(binding, input, maximumDigits) => TypingKeepsIdentities(d, s, binding, input, maximumDigits);
    case SetTo(binding, value) => SettingKeepsIdentities(d, s, binding, value);
    case Leave(binding) => LeavingKeepsIdentities(d, s, binding);
    case Submit => SubmittingKeepsIdentities(d, s);
    case MarkChanged => SameIdentities(s, Marked(s));
    case Report(source, dataRevision, findings) => ReportingKeepsIdentities(s, source, dataRevision, findings);
  }

  lemma ReportingKeepsIdentities(s: State, source: Bytes, dataRevision: nat, findings: seq<Finding>)
    ensures NothingReturns(s, ApplyFindings(s, source, dataRevision, findings).0)
  {
    var t := ApplyFindings(s, source, dataRevision, findings).0;
    assert t.arrays == s.arrays && t.nextIdentity == s.nextIdentity;
    hide ApplyFindings, NothingReturns, LiveIds;
    SameIdentities(s, t);
  }

  lemma TypingKeepsIdentities(d: Definition, s: State, binding: Pointer, input: Bytes, maximumDigits: nat)
    requires Sound(d, s)
    ensures NothingReturns(s, EditText(d, s, binding, input, maximumDigits).0)
  {
    var (t, r) := EditText(d, s, binding, input, maximumDigits);
    if r.Ok? {
      TypedTextTakesEffect(d, s, binding, input, maximumDigits);
    } else {
      assert t == s;
    }
    hide NothingReturns, LiveIds, EditText;
    SameIdentities(s, t);
  }

  lemma SettingKeepsIdentities(d: Definition, s: State, binding: Pointer, value: Json)
    requires Sound(d, s)
    ensures NothingReturns(s, SetValue(d, s, binding, value).0)
  {
    var (t, r) := SetValue(d, s, binding, value);
    if r.Ok? {
      SetValueTakesEffect(d, s, binding, value);
    } else {
      assert t == s;
    }
    hide NothingReturns, LiveIds, SetValue;
    SameIdentities(s, t);
  }

  lemma LeavingKeepsIdentities(d: Definition, s: State, binding: Pointer)
    requires Sound(d, s)
    ensures NothingReturns(s, Blur(d, s, binding).0)
  {
    var t := Blur(d, s, binding).0;
    hide NothingReturns;
    if Locate(d, s, binding).Some? {
      LeavingTakesEffect(d, s, binding);
    } else {
      hide Locate;
      forall k | 0 <= k < |s.arrays| ensures t.arrays[k].items == s.arrays[k].items {
      }
    }
    assert LiveIds(t.arrays) == LiveIds(s.arrays);
    SameIdentities(s, t);
  }

  lemma SubmittingKeepsIdentities(d: Definition, s: State)
    requires Sound(d, s)
    ensures NothingReturns(s, PrepareSubmission(d, s).0)
  {
    var t := PrepareSubmission(d, s).0;
    hide NothingReturns, Blockers;
    forall k | 0 <= k < |s.arrays| ensures Ids(t.arrays[k].items) == Ids(s.arrays[k].items) {
    }
    assert LiveIds(t.arrays) == LiveIds(s.arrays);
    SameIdentities(s, t);
  }

  /** What every plan yields is drawn from the lists it replaces. */
  lemma PlansKeepIdentities(d: Definition, s: State, arrays: seq<ArrayState>, plans: seq<Plan>, data: Json, t: State)
    requires Sound(d, s) && |arrays| == |plans| == |d.arrays| && AllShaped(d.arrays, arrays) && AllFeasible(arrays, plans)
    requires LiveIds(arrays) == LiveIds(s.arrays)
    requires LiveIds(t.arrays) == LiveIds(Planned(d.arrays, arrays, plans, data, s.nextIdentity).0)
    requires t.nextIdentity == Planned(d.arrays, arrays, plans, data, s.nextIdentity).1
    ensures NothingReturns(s, t)
  {
    PlannedFollows(d.arrays, arrays, plans, data, s.nextIdentity);
    var planned := Planned(d.arrays, arrays, plans, data, s.nextIdentity).0;
    hide Planned, AllFeasible, AllShaped, DistinctBelow, ValuesAt;
    assert |LiveIds(t.arrays)| == |LiveIds(planned)|;
    forall k, i | 0 <= k < |s.arrays| && 0 <= i < |t.arrays[k].items|
      ensures t.arrays[k].items[i].identity in Ids(s.arrays[k].items) || s.nextIdentity <= t.arrays[k].items[i].identity
    {
      assert LiveIds(t.arrays)[k] == LiveIds(planned)[k] && LiveIds(arrays)[k] == LiveIds(s.arrays)[k];
      assert Ids(t.arrays[k].items)[i] == Ids(planned[k].items)[i];
      assert DrawnList(arrays[k], planned[k], s.nextIdentity, t.nextIdentity);
    }
  }

  lemma RestructuringKeepsIdentities(d: Definition, s: State, at: Pointer, data: Json, t: State)
    requires Sound(d, s)
    requires t.nextIdentity == Restructured(d, s, at, data).nextIdentity
    requires LiveIds(t.arrays) == LiveIds(Restructured(d, s, at, data).arrays)
    ensures NothingReturns(s, t)
  {
    assert AllFeasible(s.arrays, BelowPlans(d, at));
    assert AllShaped(d.arrays, s.arrays);
    hide NothingReturns, Planned, LiveIds;
    PlansKeepIdentities(d, s, s.arrays, BelowPlans(d, at), data, t);
  }

  lemma StructureCommandsKeepIdentities(d: Definition, s: State, command: Command)
    requires Sound(d, s) && (command.MaterializeAt? || command.ReplaceAt? || command.RemoveAtBinding?)
    ensures NothingReturns(s, Apply(d, s, command))
  {
    SameIdentities(s, s);
    var t := Apply(d, s, command);
    hide NothingReturns, LiveIds, Restructured;
    match command
    case MaterializeAt(at, seed) =>
      if Materialize(d, s, at, seed).1.Ok? {
        RestructuringKeepsIdentities(d, s, at, SetBound(s.data, at, seed).value, t);
      }
    case ReplaceAt(at, value) =>
      if ReplaceStructure(d, s, at, value).1.Ok? {
        ClearedStructureKeepsIdentities(d, s, at, SetBound(s.data, at, value).value, t);
      }
    case RemoveAtBinding(at) =>
      if RemoveValue(d, s, at).1.Ok? {
        ClearedStructureKeepsIdentities(d, s, at, TakeBound(s.data, at).value, t);
      }
  }

  lemma ClearedStructureKeepsIdentities(d: Definition, s: State, at: Pointer, data: Json, t: State)
    requires Sound(d, s) && t == DataChanged(ClearedBelow(d, ShapedRestructured(d, s, at, data), at))
    ensures NothingReturns(s, t)
  {
    ClearedIsAligned(d, ShapedRestructured(d, s, at, data), at);
    hide NothingReturns, LiveIds, Restructured;
    RestructuringKeepsIdentities(d, s, at, data, t);
  }

  lemma ReinitializingKeepsIdentities(d: Definition, s: State, data: Json)
    requires Sound(d, s)
    ensures NothingReturns(s, Reinitialize(d, s, data).0)
  {
    if data.Object? {
      ReinitializedIsNew(d, s, data);
      FreshArraysFollow(d, data, s.nextIdentity);
      hide FreshArrays, JsonEqual;
    } else {
      SameIdentities(s, s);
    }
  }

  lemma TransactingKeepsIdentities(d: Definition, s: State, data: Json, writes: seq<Pointer>, changes: seq<HostChange>,
                                   itemWrites: seq<ItemWrite>)
    requires Sound(d, s)
    ensures NothingReturns(s, HostTransaction(d, s, data, writes, changes, itemWrites).0)
  {
    var (t, r) := HostTransaction(d, s, data, writes, changes, itemWrites);
    if r.Ok? {
      SuccessUnfolds(d, s, data, writes, changes, itemWrites);
      ItemWritesOnlyClear(d.arrays, s.arrays, itemWrites);
      var cleared, plans := ClearedByItemWrites(d.arrays, s.arrays, itemWrites).0, PlansOf(s.arrays, changes);
      ClearedKeepIds(s.arrays, cleared);
      PlansAreFeasible(d, s, data, changes, cleared);
      CommittedCounts(d, s, data, writes, changes, itemWrites);
      hide NothingReturns, LiveIds, HostTransaction, Planned, ClearedByItemWrites, WellFormedTransaction;
      PlansKeepIdentities(d, s, cleared, plans, t.data, t);
    } else {
      FailedTransactionsOnlyClear(d, s, data, writes, changes, itemWrites);
      ClearedKeepIds(s.arrays, t.arrays);
      hide NothingReturns, LiveIds, HostTransaction;
      SameIdentities(s, t);
    }
  }

  lemma CommittedCounts(d: Definition, s: State, data: Json, writes: seq<Pointer>, changes: seq<HostChange>,
                        itemWrites: seq<ItemWrite>)
    requires Shaped(d, s) && HostTransaction(d, s, data, writes, changes, itemWrites).1.Ok?
    ensures AllShaped(d.arrays, s.arrays) && |changes| == |d.arrays|
    ensures HostTransaction(d, s, data, writes, changes, itemWrites).0.nextIdentity
         == Planned(d.arrays, ClearedByItemWrites(d.arrays, s.arrays, itemWrites).0, PlansOf(s.arrays, changes),
                    if JsonEqual(s.data, data) then s.data else data, s.nextIdentity).1
  {
    SuccessUnfolds(d, s, data, writes, changes, itemWrites);
    hide JsonEqual, Planned;
  }

  /** No operation but a reset brings an identity back. */
  lemma StepsKeepIdentities(d: Definition, s: State, command: Command)
    requires WellFormedDefinition(d) && Sound(d, s) && !command.ResetForm?
    ensures NothingReturns(s, Apply(d, s, command))
  {
    if OnItems(command) {
      ItemCommandsKeepIdentities(d, s, command);
    } else if OnControls(command) || command.Report? {
      ControlCommandsKeepIdentities(d, s, command);
    } else if command.MaterializeAt? || command.ReplaceAt? || command.RemoveAtBinding? {
      StructureCommandsKeepIdentities(d, s, command);
    } else {
      hide NothingReturns, HostTransaction, Reinitialize;
      match command
      case ReinitializeWith(data) => ReinitializingKeepsIdentities(d, s, data);
      case ReplaceWith(data) => TransactingKeepsIdentities(d, s, data, [[]], ReplacementChanges(d, s, data), []);
      case Transact(data, writes, changes, itemWrites) =>
        TransactingKeepsIdentities(d, s, data, writes, changes, itemWrites);
    }
  }

  lemma NothingReturnsIsTransitive(s: State, t: State, u: State)
    requires NothingReturns(s, t) && NothingReturns(t, u)
    ensures NothingReturns(s, u)
  {
    forall k, i | 0 <= k < |s.arrays| && 0 <= i < |u.arrays[k].items|
      ensures u.arrays[k].items[i].identity in Ids(s.arrays[k].items) || s.nextIdentity <= u.arrays[k].items[i].identity
    {
      var x := u.arrays[k].items[i].identity;
      if x in Ids(t.arrays[k].items) {
        var j :| 0 <= j < |t.arrays[k].items| && Ids(t.arrays[k].items)[j] == x;
        assert t.arrays[k].items[j].identity == x;
      }
    }
  }

  /** Over any run without a reset, an identity that is gone stays gone. */
  lemma {:induction false} RetiredIdentitiesStayRetired(d: Definition, s: State, commands: seq<Command>)
    requires WellFormedDefinition(d) && Sound(d, s)
    requires forall i | 0 <= i < |commands| :: !commands[i].ResetForm?
    ensures NothingReturns(s, Run(d, s, commands))
    ensures forall k, x: nat | 0 <= k < |s.arrays| && x < s.nextIdentity && x !in Ids(s.arrays[k].items) ::
              x !in Ids(Run(d, s, commands).arrays[k].items)
    decreases |commands|
  {
    if commands == [] {
      SameIdentities(s, s);
    } else {
      hide Sound, Apply, WellFormedDefinition;
      var front, last := commands[..|commands| - 1], commands[|commands| - 1];
      RetiredIdentitiesStayRetired(d, s, front);
      StepsKeepIdentities(d, Run(d, s, front), last);
      NothingReturnsIsTransitive(s, Run(d, s, front), Run(d, s, commands));
      StaysRetired(s, Run(d, s, commands));
    }
  }

  lemma StaysRetired(s: State, t: State)
    requires NothingReturns(s, t)
    ensures forall k, x: nat | 0 <= k < |s.arrays| && x < s.nextIdentity && x !in Ids(s.arrays[k].items) ::
              x !in Ids(t.arrays[k].items)
  {
    forall k, x: nat | 0 <= k < |s.arrays| && x < s.nextIdentity && x in Ids(t.arrays[k].items)
      ensures x in Ids(s.arrays[k].items)
    {
      var i :| 0 <= i < |t.arrays[k].items| && Ids(t.arrays[k].items)[i] == x;
      assert t.arrays[k].items[i].identity == x;
    }
  }

  // ------------------------------------------------------------------------------- refusals

  /** The operation answers with an error. */
  predicate Refuses(d: Definition, s: State, command: Command)
    requires Shaped(d, s) && Aligned(d, s)
  {
    match command
    case AppendItem(binding) => Append(d, s, binding).1.Err?
    case InsertItem(binding, before) => InsertBefore(d, s, binding, before).1.Err?
    case RemoveItem(binding, identity) => Remove(d, s, binding, identity).1.Err?
    case MoveItem(binding, identity, up) => Move(d, s, binding, identity, up).1.Err?
    case ToggleChoice(binding, value) => Toggle(d, s, binding, value).1.Err?
    case TypeText(binding, input, maximumDigits) => EditText(d, s, binding, input, maximumDigits).1.Err?
    case SetTo(binding, value) => SetValue(d, s, binding, value).1.Err?
    case MaterializeAt(binding, value) => Materialize(d, s, binding, value).1.Err?
    case ReplaceAt(binding, value) => ReplaceStructure(d, s, binding, value).1.Err?
    case RemoveAtBinding(binding) => RemoveValue(d, s, binding).1.Err?
    case Report(source, dataRevision, findings) => ApplyFindings(s, source, dataRevision, findings).1.Err?
    case ReinitializeWith(data) => Reinitialize(d, s, data).1.Err?
    case ReplaceWith(data) => ReplaceFormData(d, s, data).1.Err?
    case Transact(data, writes, changes, itemWrites) => HostTransaction(d, s, data, writes, changes, itemWrites).1.Err?
    case Leave(binding) => Blur(d, s, binding).1.Err?
    case Submit => PrepareSubmission(d, s).1.Err?
    case ResetForm => false
    case MarkChanged => false
  }

  lemma RefusedItemsStay(d: Definition, s: State, command: Command)
    requires Sound(d, s) && OnItems(command) && Refuses(d, s, command)
    ensures Apply(d, s, command) == s
  {
    hide InsertedRow, Exchanged, WithRows, CanAppend, CanRemove, CanToggle, Without, With, JsonEqual;
  }

  lemma RefusedControlsStay(d: Definition, s: State, command: Command)
    requires Sound(d, s) && OnControls(command) && !command.Submit? && Refuses(d, s, command)
    ensures Apply(d, s, command) == s
  {
    hide Written, TypedInto, TextRefusal, AlreadyThere, JsonEqual, SetBound, Resolve;
  }

  lemma RefusedStructuresStay(d: Definition, s: State, command: Command)
    requires Sound(d, s) && (OnStructures(command) || command.ReinitializeWith?) && Refuses(d, s, command)
    ensures Apply(d, s, command) == s
  {
    hide Restructured, ClearedBelow, MayReplaceStructure, SetBound, TakeBound, Resolve, Normalized, FreshArrays;
  }

  lemma RefusedTransactions(d: Definition, s: State, data: Json, writes: seq<Pointer>, changes: seq<HostChange>,
                            itemWrites: seq<ItemWrite>)
    requires Shaped(d, s) && HostTransaction(d, s, data, writes, changes, itemWrites).1.Err?
    ensures HostTransaction(d, s, data, writes, changes, itemWrites).0 == s
       <==> !LeavesTrace(d, s, data, writes, changes, itemWrites)
  {
    FailedTransactionsOnlyClear(d, s, data, writes, changes, itemWrites);
    WhenTransactionsSucceed(d, s, data, writes, changes, itemWrites);
    hide HostTransaction, WellFormedTransaction, NamesLiveItem, WritesFindNoInput, OnlyCleared;
  }

  /** A refusal changes nothing, unless a transaction clears something before it names a dead item; a submission that is
  blocked still counts as attempted. */
  lemma RefusalsChangeNothing(d: Definition, s: State, command: Command)
    requires Sound(d, s) && Refuses(d, s, command) && !command.Submit?
    ensures Apply(d, s, command) == s <==> LeavesNoTrace(d, s, command)
  {
    if OnItems(command) {
      RefusedItemsStay(d, s, command);
    } else if OnControls(command) {
      RefusedControlsStay(d, s, command);
    } else if OnStructures(command) || command.ReinitializeWith? {
      RefusedStructuresStay(d, s, command);
    } else {
      hide HostTransaction, LeavesTrace;
      match command
      case Transact(data, writes, changes, itemWrites) =>
        RefusedTransactions(d, s, data, writes, changes, itemWrites);
      case ReplaceWith(data) =>
        RefusedTransactions(d, s, data, [[]], ReplacementChanges(d, s, data), []);
        NothingToName(d, s, data, [[]], ReplacementChanges(d, s, data));
    }
  }

  lemma NothingToName(d: Definition, s: State, data: Json, writes: seq<Pointer>, changes: seq<HostChange>)
    requires Shaped(d, s)
    ensures !LeavesTrace(d, s, data, writes, changes, [])
  {
  }
}
