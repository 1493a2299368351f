/** Whole runs of a form: what holds after any sequence of operations. */
module FormRuns {
  import opened Bytes
  import opened Json
  import opened FormModel
  import opened ArrayOperations
  import opened Toggles
  import opened ControlEdits
  import opened Structures
  import opened Lifecycle
  import opened ExternalFindings
  import opened HostTransactions
  import opened TransactionEffects

  datatype Command =
    | AppendItem(binding: Pointer)
    | InsertItem(binding: Pointer, before: nat)
    | RemoveItem(binding: Pointer, identity: nat)
    | MoveItem(binding: Pointer, identity: nat, up: bool)
    | ToggleChoice(binding: Pointer, value: Json)
    | TypeText(binding: Pointer, input: Bytes, maximumDigits: nat)
    | SetTo(binding: Pointer, value: Json)
    | MaterializeAt(binding: Pointer, value: Json)
    | ReplaceAt(binding: Pointer, value: Json)
    | RemoveAtBinding(binding: Pointer)
    | Report(source: Bytes, dataRevision: nat, findings: seq<Finding>)
    | ResetForm
    | ReinitializeWith(data: Json)
    | ReplaceWith(data: Json)
    | Transact(data: Json, writes: seq<Pointer>, changes: seq<HostChange>, itemWrites: seq<ItemWrite>)
    | Leave(binding: Pointer)
    | Submit
    | MarkChanged

  /** `mark_state_changed`. */
  function Marked(s: State): State {
    s.(stateRevision := s.stateRevision + 1)
  }

  /** The form after one operation, whether or not it succeeds. */
  function Apply(d: Definition, s: State, command: Command): State
    requires Shaped(d, s) && Aligned(d, s)
  {
    match command
    case AppendItem(binding) => Append(d, s, binding).0
    case InsertItem(binding, before) => InsertBefore(d, s, binding, before).0
    case RemoveItem(binding, identity) => Remove(d, s, binding, identity).0
    case MoveItem(binding, identity, up) => Move(d, s, binding, identity, up).0
    case ToggleChoice(binding, value) => Toggle(d, s, binding, value).0
    case TypeText(binding, input, maximumDigits) => EditText(d, s, binding, input, maximumDigits).0
    case SetTo(binding, value) => SetValue(d, s, binding, value).0
    case MaterializeAt(binding, value) => Materialize(d, s, binding, value).0
    case ReplaceAt(binding, value) => ReplaceStructure(d, s, binding, value).0
    case RemoveAtBinding(binding) => RemoveValue(d, s, binding).0
    case Report(source, dataRevision, findings) => ApplyFindings(s, source, dataRevision, findings).0
    case ResetForm => Reset(d, s)
    case ReinitializeWith(data) => Reinitialize(d, s, data).0
    case ReplaceWith(data) => ReplaceFormData(d, s, data).0
    case Transact(data, writes, changes, itemWrites) => HostTransaction(d, s, data, writes, changes, itemWrites).0
    case Leave(binding) => Blur(d, s, binding).0
    case Submit => PrepareSubmission(d, s).0
    case MarkChanged => Marked(s)
  }

  // ------------------------------------------------------------------------------ one step

  predicate OnItems(command: Command) {
    command.AppendItem? || command.InsertItem? || command.RemoveItem? || command.MoveItem? || command.ToggleChoice?
  }

  predicate OnControls(command: Command) {
    command.TypeText? || command.SetTo? || command.Leave? || command.Submit? || command.MarkChanged?
  }

  predicate OnStructures(command: Command) {
    command.MaterializeAt? || command.ReplaceAt? || command.RemoveAtBinding? || command.Report?
  }

  lemma ItemCommandsKeep(d: Definition, s: State, command: Command)
    requires WellFormedDefinition(d) && Sound(d, s) && OnItems(command)
    ensures Sound(d, Apply(d, s, command)) && (Honest(d, s) ==> Honest(d, Apply(d, s, command)))
  {
    hide WellFormedDefinition, Honest, Append, InsertBefore, Remove, Move, Toggle;
    match command
    case AppendItem(binding) => AppendIsSound(d, s, binding);
    case InsertItem(binding, before) => InsertBeforeIsSound(d, s, binding, before);
    case RemoveItem(binding, identity) => RemoveIsSound(d, s, binding, identity);
    case MoveItem(binding, identity, up) => MoveIsSound(d, s, binding, identity, up);
    case ToggleChoice(binding, value) => ToggleIsSound(d, s, binding, value);
  }

  lemma ControlCommandsKeep(d: Definition, s: State, command: Command)
    requires WellFormedDefinition(d) && Sound(d, s) && OnControls(command)
    ensures Sound(d, Apply(d, s, command)) && (Honest(d, s) ==> Honest(d, Apply(d, s, command)))
  {
    hide WellFormedDefinition, Honest, EditText, SetValue, Blur, PrepareSubmission, Marked;
    match command
    case TypeText(binding, input, maximumDigits) => EditTextIsSound(d, s, binding, input, maximumDigits);
    case SetTo(binding, value) => SetValueIsSound(d, s, binding, value);
    case Leave(binding) => BlurIsSound(d, s, binding);
    case Submit => PrepareSubmissionIsSound(d, s);
    case MarkChanged => MarkedIsSound(d, s);
  }

  lemma StructureCommandsKeep(d: Definition, s: State, command: Command)
    requires Sound(d, s) && OnStructures(command)
    ensures Sound(d, Apply(d, s, command)) && (Honest(d, s) ==> Honest(d, Apply(d, s, command)))
  {
    hide Honest, Materialize, ReplaceStructure, RemoveValue, ApplyFindings;
    match command
    case MaterializeAt(binding, value) => MaterializeIsSound(d, s, binding, value);
    case ReplaceAt(binding, value) => ReplaceStructureIsSound(d, s, binding, value);
    case RemoveAtBinding(binding) => RemoveValueIsSound(d, s, binding);
    case Report(source, dataRevision, findings) => ApplyFindingsIsSound(d, s, source, dataRevision, findings);
  }

  lemma LifecycleCommandsKeep(d: Definition, s: State, command: Command)
    requires Sound(d, s) && (command.ResetForm? || command.ReinitializeWith? || command.ReplaceWith?)
    ensures Sound(d, Apply(d, s, command)) && (Honest(d, s) ==> Honest(d, Apply(d, s, command)))
  {
    hide Honest, Reset, Reinitialize, ReplaceFormData;
    match command
    case ResetForm => ResetIsSound(d, s);
    case ReinitializeWith(data) => ReinitializeIsSound(d, s, data);
    case ReplaceWith(data) => ReplaceFormDataIsSound(d, s, data);
  }

  lemma StepsKeep(d: Definition, s: State, command: Command)
    requires WellFormedDefinition(d) && Sound(d, s)
    ensures Sound(d, Apply(d, s, command))
    ensures !command.Transact? && Honest(d, s) ==> Honest(d, Apply(d, s, command))
  {
    hide WellFormedDefinition, Honest, Apply;
    if OnItems(command) {
      ItemCommandsKeep(d, s, command);
    } else if OnControls(command) {
      ControlCommandsKeep(d, s, command);
    } else if OnStructures(command) {
      StructureCommandsKeep(d, s, command);
    } else if command.Transact? {
      TransactionsKeep(d, s, command);
    } else {
      LifecycleCommandsKeep(d, s, command);
    }
  }

  lemma TransactionsKeep(d: Definition, s: State, command: Command)
    requires Sound(d, s) && command.Transact?
    ensures Sound(d, Apply(d, s, command))
  {
    hide HostTransaction;
    HostTransactionIsSound(d, s, command.data, command.writes, command.changes, command.itemWrites);
  }

  /** Every operation keeps the form sound. */
  lemma StepsAreSound(d: Definition, s: State, command: Command)
    requires WellFormedDefinition(d) && Sound(d, s)
    ensures Sound(d, Apply(d, s, command))
  {
    hide Apply;
    StepsKeep(d, s, command);
  }

  lemma MarkedIsSound(d: Definition, s: State)
    requires Sound(d, s)
    ensures Sound(d, Marked(s)) && (Honest(d, s) ==> Honest(d, Marked(s)))
  {
    SameFormIsHonest(d, s, Marked(s));
    hide ValuesAt, HonestEdits;
  }

  predicate AllLive(arrays: seq<ArrayState>, itemWrites: seq<ItemWrite>) {
    forall w | 0 <= w < |itemWrites| :: NamesLiveItem(arrays, itemWrites[w])
  }

  /** A transaction that will succeed covers what it changes. Any other operation is careful. */
  ghost predicate Careful(d: Definition, s: State, command: Command)
    requires Shaped(d, s) && Aligned(d, s)
  {
    match command
    case Transact(data, writes, changes, itemWrites) =>
      WellFormedTransaction(d, s, data, changes) && AllLive(s.arrays, itemWrites) ==>
        WritesCover(d, s, data, writes, changes, itemWrites)
    case _ => true
  }

  /** An operation keeps every buffer honest if and only if it is careful. */
  lemma StepsAreHonest(d: Definition, s: State, command: Command)
    requires WellFormedDefinition(d) && Sound(d, s) && Honest(d, s)
    ensures Sound(d, Apply(d, s, command))
    ensures Honest(d, Apply(d, s, command)) <==> Careful(d, s, command)
  {
    StepsKeep(d, s, command);
    if command.Transact? {
      TransactionsAreHonest(d, s, command);
    }
    hide Apply, Honest, Sound, WellFormedDefinition, WritesCover, WellFormedTransaction, AllLive;
  }

  lemma TransactionsAreHonest(d: Definition, s: State, command: Command)
    requires Sound(d, s) && Honest(d, s) && command.Transact?
    ensures Sound(d, Apply(d, s, command))
    ensures Honest(d, Apply(d, s, command)) <==> Careful(d, s, command)
  {
    var Transact(data, writes, changes, itemWrites) := command;
    HostTransactionIsSound(d, s, data, writes, changes, itemWrites);
    WhenTransactionsSucceed(d, s, data, writes, changes, itemWrites);
    hide HostTransaction, OnlyClearedItem, WritesCover, Honest, WellFormedTransaction, NamesLiveItem, WritesFindNoInput,
         OnlyCleared;
    if HostTransaction(d, s, data, writes, changes, itemWrites).1.Ok? {
      HonestWhenCovered(d, s, data, writes, changes, itemWrites);
    } else {
      FailedTransactionsOnlyClear(d, s, data, writes, changes, itemWrites);
      ClearingStaysHonest(d, s, HostTransaction(d, s, data, writes, changes, itemWrites).0);
    }
  }

  lemma ClearingStaysHonest(d: Definition, s: State, t: State)
    requires Shaped(d, s) && Aligned(d, s) && Honest(d, s) && Shaped(d, t) && Aligned(d, t)
    requires t.data == s.data && OnlyCleared(s.arrays, t.arrays)
    requires forall c | 0 <= c < |s.edits| :: t.edits[c] == s.edits[c] || t.edits[c] == Cleared(s.edits[c])
    ensures Honest(d, t)
  {
    hide HonestEdits, ValuesAt;
    ClearedEditsAreHonest(d.controls, s.edits, t.edits, s.data);
    forall k, i | 0 <= k < |d.arrays| && 0 <= i < |t.arrays[k].items| ensures HonestRow(d.arrays[k], Rows(d, t, k)[i]) {
      assert HonestRow(d.arrays[k], Rows(d, s, k)[i]);
      assert OnlyClearedItem(s.arrays[k].items[i], t.arrays[k].items[i]);
      ClearedEditsAreHonest(d.arrays[k].controls, s.arrays[k].items[i].edits, t.arrays[k].items[i].edits,
                            ValuesAt(s.data, d.arrays[k].binding)[i]);
    }
  }

  // ----------------------------------------------------------------------- truthful revisions

  /** Revisions only grow; data never changes alone; equal data revisions mean equal data. */
  ghost predicate Truthful(s: State, t: State) {
    && s.dataRevision <= t.dataRevision && s.stateRevision <= t.stateRevision
    && (s.dataRevision < t.dataRevision ==> s.stateRevision < t.stateRevision)
    && (s.dataRevision == t.dataRevision ==> JsonEqual(s.data, t.data))
  }

  /** Nothing changed that the state revision does not tell. */
  ghost predicate Told(s: State, t: State) {
    s.stateRevision == t.stateRevision ==> s == t
  }

  lemma NothingHappened(s: State)
    ensures Truthful(s, s) && Told(s, s)
  {
  }

  lemma MovingIsTruthful(d: Definition, s: State, binding: Pointer, identity: nat, up: bool)
    requires Sound(d, s)
    ensures Truthful(s, Move(d, s, binding, identity, up).0) && Told(s, Move(d, s, binding, identity, up).0)
  {
    NothingHappened(s);
    QuietMovesKeepTheData(d, s, binding, identity, up);
    hide WithRows, JsonEqual, Rows, ArrayIndex, ItemIndex;
  }

  lemma ItemCommandsAreTruthful(d: Definition, s: State, command: Command)
    requires Sound(d, s) && OnItems(command)
    ensures Truthful(s, Apply(d, s, command)) && Told(s, Apply(d, s, command))
  {
    if command.MoveItem? {
      hide Move;
      MovingIsTruthful(d, s, command.binding, command.identity, command.up);
    } else {
      NothingHappened(s);
      hide WithRows, JsonEqual, Rows, ArrayIndex, ItemIndex, Without, With, CanToggle, CanAppend, CanRemove;
    }
  }

  lemma ControlCommandsAreTruthful(d: Definition, s: State, command: Command)
    requires Sound(d, s)
    requires OnControls(command) || OnStructures(command)
    ensures Truthful(s, Apply(d, s, command)) && Told(s, Apply(d, s, command))
  {
    NothingHappened(s);
    EqualToItself(s.data);
    match command {
      case TypeText(binding, input, maximumDigits) => TypingIsTruthful(d, s, binding, input, maximumDigits);
      case SetTo(binding, value) => SettingIsTruthful(d, s, binding, value);
      case Leave(binding) => LeavingIsTruthful(d, s, binding);
      case Submit => SubmittingIsTruthful(d, s);
      case Report(source, dataRevision, findings) => ReportingIsTruthful(s, source, dataRevision, findings);
      case _ => WritingIsTruthful(d, s, command);
    }
  }

  lemma WritingIsTruthful(d: Definition, s: State, command: Command)
    requires Sound(d, s) && (command.MaterializeAt? || command.ReplaceAt? || command.RemoveAtBinding? || command.MarkChanged?)
    ensures Truthful(s, Apply(d, s, command)) && Told(s, Apply(d, s, command))
  {
    NothingHappened(s);
    EqualToItself(s.data);
    hide JsonEqual, Planned, SetBound, TakeBound, Resolve, MayReplaceStructure, Aligned, Identified;
  }

  lemma TypingIsTruthful(d: Definition, s: State, binding: Pointer, input: Bytes, maximumDigits: nat)
    requires Sound(d, s)
    ensures Truthful(s, EditText(d, s, binding, input, maximumDigits).0)
    ensures Told(s, EditText(d, s, binding, input, maximumDigits).0)
  {
    NothingHappened(s);
    EqualToItself(s.data);
    hide JsonEqual, TextRefusal, AlreadyThere, Locate, Resolve, SetBound, Aligned, Identified, Current;
  }

  lemma SettingIsTruthful(d: Definition, s: State, binding: Pointer, value: Json)
    requires Sound(d, s)
    ensures Truthful(s, SetValue(d, s, binding, value).0) && Told(s, SetValue(d, s, binding, value).0)
  {
    NothingHappened(s);
    hide JsonEqual, Locate, Resolve, SetBound, Aligned, Identified, Current, Spelling, IsCompatible;
  }

  lemma LeavingIsTruthful(d: Definition, s: State, binding: Pointer)
    requires Sound(d, s)
    ensures Truthful(s, Blur(d, s, binding).0) && Told(s, Blur(d, s, binding).0)
  {
    NothingHappened(s);
    EqualToItself(s.data);
    hide JsonEqual, Locate, Aligned, Identified, Current, ArrayIndex;
  }

  lemma SubmittingIsTruthful(d: Definition, s: State)
    requires Sound(d, s)
    ensures Truthful(s, PrepareSubmission(d, s).0) && Told(s, PrepareSubmission(d, s).0)
  {
    EqualToItself(s.data);
    hide JsonEqual, Blockers, FinalizedEdits, FinalizedArrays;
  }

  lemma ReportingIsTruthful(s: State, source: Bytes, dataRevision: nat, findings: seq<Finding>)
    ensures Truthful(s, ApplyFindings(s, source, dataRevision, findings).0)
    ensures Told(s, ApplyFindings(s, source, dataRevision, findings).0)
  {
    NothingHappened(s);
    hide JsonEqual, Normalized, InsertBatch, BatchIndex;
  }

  lemma ResettingIsTruthful(d: Definition, s: State)
    requires Sound(d, s)
    ensures Truthful(s, Reset(d, s)) && Told(s, Reset(d, s))
  {
    EqualToItself(s.data);
    if Reset(d, s).stateRevision == s.stateRevision {
      QuietResetsChangeNothing(d, s);
    }
    hide JsonEqual, AnyEdited, AnyTouched, BaselineArrays;
  }

  lemma ReinitializingIsTruthful(d: Definition, s: State, data: Json)
    requires Sound(d, s)
    ensures Truthful(s, Reinitialize(d, s, data).0) && Told(s, Reinitialize(d, s, data).0)
  {
    NothingHappened(s);
    hide JsonEqual, FreshArrays;
  }

  lemma {:induction false} KeepingAllChangesNothing(lists: seq<ArrayDefinition>, arrays: seq<ArrayState>, plans: seq<Plan>,
                                                    data: Json, next: nat)
    requires |lists| == |arrays| == |plans| && forall k | 0 <= k < |plans| :: plans[k] == Keep
    ensures Planned(lists, arrays, plans, data, next) == (arrays, next)
  {
    if arrays != [] {
      var last := |arrays| - 1;
      KeepingAllChangesNothing(lists[..last], arrays[..last], plans[..last], data, next);
      assert arrays == arrays[..last] + [arrays[last].(items := arrays[last].items)];
    }
  }

  lemma TransactingIsTruthful(d: Definition, s: State, data: Json, writes: seq<Pointer>, changes: seq<HostChange>,
                              itemWrites: seq<ItemWrite>)
    requires Sound(d, s)
    ensures var (t, r) := HostTransaction(d, s, data, writes, changes, itemWrites);
            Truthful(s, t) && (r.Ok? ==> Told(s, t))
  {
    EqualToItself(s.data);
    NothingHappened(s);
    var (t, r) := HostTransaction(d, s, data, writes, changes, itemWrites);
    if r.Ok? {
      SuccessUnfolds(d, s, data, writes, changes, itemWrites);
      var cleared, plans := ClearedByItemWrites(d.arrays, s.arrays, itemWrites).0, PlansOf(s.arrays, changes);
      if t.stateRevision == s.stateRevision {
        KeepingAllChangesNothing(d.arrays, cleared, plans, t.data, s.nextIdentity);
      }
    }
    hide JsonEqual, Planned, ClearedByItemWrites, WellFormedTransaction, ClearedByWrites;
  }

  /** A transaction that names a dead item, though it is well formed, and clears something before it gets there. */
  predicate LeavesTrace(d: Definition, s: State, data: Json, writes: seq<Pointer>, changes: seq<HostChange>,
                        itemWrites: seq<ItemWrite>)
    requires Shaped(d, s)
  {
    && WellFormedTransaction(d, s, data, changes) && !AllLive(s.arrays, itemWrites)
    && !WritesFindNoInput(d, s, writes, itemWrites)
  }

  /** No operation but such a transaction changes anything without moving the state revision. */
  predicate LeavesNoTrace(d: Definition, s: State, command: Command)
    requires Shaped(d, s)
  {
    match command
    case Transact(data, writes, changes, itemWrites) => !LeavesTrace(d, s, data, writes, changes, itemWrites)
    case _ => true
  }

  lemma TracesAreUntold(d: Definition, s: State, data: Json, writes: seq<Pointer>, changes: seq<HostChange>,
                        itemWrites: seq<ItemWrite>)
    requires Sound(d, s)
    ensures Told(s, HostTransaction(d, s, data, writes, changes, itemWrites).0)
       <==> !LeavesTrace(d, s, data, writes, changes, itemWrites)
  {
    TransactingIsTruthful(d, s, data, writes, changes, itemWrites);
    WhenTransactionsSucceed(d, s, data, writes, changes, itemWrites);
    hide HostTransaction, WellFormedTransaction, NamesLiveItem, WritesFindNoInput, OnlyCleared, Truthful;
    if HostTransaction(d, s, data, writes, changes, itemWrites).1.Err? {
      FailedTransactionsOnlyClear(d, s, data, writes, changes, itemWrites);
    }
  }

  /** One step: truthful revisions, and nothing changes untold exactly when the step leaves no trace of a failure. */
  lemma StepsAreTruthful(d: Definition, s: State, command: Command)
    requires WellFormedDefinition(d) && Sound(d, s)
    ensures Truthful(s, Apply(d, s, command))
    ensures Told(s, Apply(d, s, command)) <==> LeavesNoTrace(d, s, command)
  {
    hide WellFormedDefinition, Truthful, Told, Append, InsertBefore, Remove, Move, Toggle, EditText, SetValue, Materialize,
         ReplaceStructure, RemoveValue, ApplyFindings, Reset, Reinitialize, ReplaceFormData, HostTransaction, Blur, PrepareSubmission, Marked,
         LeavesTrace;
    match command {
      case ResetForm => ResettingIsTruthful(d, s);
      case ReinitializeWith(data) => ReinitializingIsTruthful(d, s, data);
      case ReplaceWith(data) => ReplacingIsTruthful(d, s, data);
      case Transact(data, writes, changes, itemWrites) =>
        TransactingIsTruthful(d, s, data, writes, changes, itemWrites);
        TracesAreUntold(d, s, data, writes, changes, itemWrites);
      case _ =>
        if OnItems(command) {
          ItemCommandsAreTruthful(d, s, command);
        } else {
          ControlCommandsAreTruthful(d, s, command);
        }
    }
  }

  lemma ReplacingIsTruthful(d: Definition, s: State, data: Json)
    requires Sound(d, s)
    ensures Truthful(s, ReplaceFormData(d, s, data).0) && Told(s, ReplaceFormData(d, s, data).0)
  {
    TransactingIsTruthful(d, s, data, [[]], ReplacementChanges(d, s, data), []);
    TracesAreUntold(d, s, data, [[]], ReplacementChanges(d, s, data), []);
    hide HostTransaction, Truthful, Told;
  }

  // ------------------------------------------------------------------------------- whole runs

  function Run(d: Definition, s: State, commands: seq<Command>): State
    requires WellFormedDefinition(d) && Sound(d, s)
    ensures Sound(d, Run(d, s, commands))
  {
    if commands == [] then s
    else
      var before := Run(d, s, commands[..|commands| - 1]);
      StepsAreSound(d, before, commands[|commands| - 1]);
      Apply(d, before, commands[|commands| - 1])
  }

  lemma TruthIsTransitive(s: State, t: State, u: State)
    requires Truthful(s, t) && Truthful(t, u)
    ensures Truthful(s, u)
  {
    if s.dataRevision == u.dataRevision {
      EqualIsTransitive(s.data, t.data, u.data);
    }
  }

  /** Between any two moments of any run, revisions grow, and the same data revision means the same data. */
  lemma {:induction false} RunsAreTruthful(d: Definition, s: State, commands: seq<Command>)
    requires WellFormedDefinition(d) && Sound(d, s)
    ensures Truthful(s, Run(d, s, commands))
    decreases |commands|
  {
    if commands == [] {
      NothingHappened(s);
    } else {
      hide Truthful, Sound, Apply;
      var before := Run(d, s, commands[..|commands| - 1]);
      RunsAreTruthful(d, s, commands[..|commands| - 1]);
      StepsAreTruthful(d, before, commands[|commands| - 1]);
      TruthIsTransitive(s, before, Run(d, s, commands));
    }
  }

  /** Every command of the run leaves no trace at its turn. */
  ghost predicate TracelessRun(d: Definition, s: State, commands: seq<Command>)
    requires WellFormedDefinition(d) && Sound(d, s)
  {
    commands == [] ||
    (&& TracelessRun(d, s, commands[..|commands| - 1])
     && LeavesNoTrace(d, Run(d, s, commands[..|commands| - 1]), commands[|commands| - 1]))
  }

  /** The same form, perhaps with fewer buffers and blockers. */
  ghost predicate ClearedForm(s: State, t: State) {
    && t == s.(edits := t.edits, arrays := t.arrays) && OnlyCleared(s.arrays, t.arrays) && |t.edits| == |s.edits|
    && forall c | 0 <= c < |s.edits| :: t.edits[c] == s.edits[c] || t.edits[c] == Cleared(s.edits[c])
  }

  lemma ClearingTwice(s: State, t: State, u: State)
    requires ClearedForm(s, t) && ClearedForm(t, u)
    ensures ClearedForm(s, u)
  {
    hide OnlyClearedItem;
    forall k, i | 0 <= k < |s.arrays| && 0 <= i < |s.arrays[k].items|
      ensures OnlyClearedItem(s.arrays[k].items[i], u.arrays[k].items[i])
    {
      ClearingComposes(s.arrays[k].items[i], t.arrays[k].items[i], u.arrays[k].items[i]);
    }
  }

  /** What was cleared does not come back by clearing more. */
  lemma ClearingIsOneWay(s: State, t: State)
    requires ClearedForm(s, t) && ClearedForm(t, s)
    ensures s == t
  {
    assert s.edits == t.edits;
    forall k | 0 <= k < |s.arrays| ensures s.arrays[k] == t.arrays[k] {
      forall i | 0 <= i < |s.arrays[k].items| ensures s.arrays[k].items[i] == t.arrays[k].items[i] {
        assert OnlyClearedItem(s.arrays[k].items[i], t.arrays[k].items[i]);
        assert OnlyClearedItem(t.arrays[k].items[i], s.arrays[k].items[i]);
        assert s.arrays[k].items[i].edits == t.arrays[k].items[i].edits;
      }
      assert s.arrays[k].items == t.arrays[k].items;
    }
  }

  lemma NothingIsCleared(s: State)
    ensures ClearedForm(s, s)
  {
    NothingCleared(s.arrays);
    hide OnlyCleared;
  }

  /** A step that leaves the state revision alone clears input at most. */
  lemma QuietStepsOnlyClear(d: Definition, s: State, command: Command)
    requires WellFormedDefinition(d) && Sound(d, s) && Apply(d, s, command).stateRevision == s.stateRevision
    ensures ClearedForm(s, Apply(d, s, command))
  {
    StepsAreTruthful(d, s, command);
    NothingIsCleared(s);
    hide Apply, OnlyCleared, WellFormedDefinition, Sound;
    if Apply(d, s, command) != s {
      TracesOnlyClear(d, s, command);
    }
  }

  lemma TracesOnlyClear(d: Definition, s: State, command: Command)
    requires Sound(d, s) && !LeavesNoTrace(d, s, command)
    ensures ClearedForm(s, Apply(d, s, command))
  {
    var Transact(data, writes, changes, itemWrites) := command;
    WhenTransactionsSucceed(d, s, data, writes, changes, itemWrites);
    hide HostTransaction, WellFormedTransaction, WritesFindNoInput, OnlyCleared;
    FailedTransactionsOnlyClear(d, s, data, writes, changes, itemWrites);
  }

  /** A run that leaves the state revision alone clears input at most; it leaves the whole form alone, buffers,
  identities and all, if and only if no command of it leaves a trace. */
  lemma {:induction false} QuietRunsChangeNothing(d: Definition, s: State, commands: seq<Command>)
    requires WellFormedDefinition(d) && Sound(d, s) && Run(d, s, commands).stateRevision == s.stateRevision
    ensures ClearedForm(s, Run(d, s, commands))
    ensures Run(d, s, commands) == s <==> TracelessRun(d, s, commands)
    decreases |commands|
  {
    if commands == [] {
      NothingIsCleared(s);
    } else {
      hide Sound, Apply, LeavesNoTrace, WellFormedDefinition, ClearedForm, JsonEqual;
      var front, last := commands[..|commands| - 1], commands[|commands| - 1];
      var before := Run(d, s, front);
      RunsAreTruthful(d, s, front);
      StepsAreTruthful(d, before, last);
      QuietRunsChangeNothing(d, s, front);
      QuietStepsOnlyClear(d, before, last);
      ClearingTwice(s, before, Run(d, s, commands));
      if Run(d, s, commands) == s {
        ClearingIsOneWay(s, before);
      }
    }
  }

  /** Every command of the run is careful at its turn. */
  ghost predicate CarefulRun(d: Definition, s: State, commands: seq<Command>)
    requires WellFormedDefinition(d) && Sound(d, s)
  {
    commands == [] ||
    (&& CarefulRun(d, s, commands[..|commands| - 1])
     && Careful(d, Run(d, s, commands[..|commands| - 1]), commands[|commands| - 1]))
  }

  /** In every reachable form items match data, identities are distinct, batches are current, and, as long as the
  host's transactions cover what they change, every buffer without a blocker stands for what is in the data. */
  lemma {:induction false} ReachableFormsAreSound(d: Definition, data: Json, commands: seq<Command>)
    requires WellFormedDefinition(d) && data.Object?
    ensures Sound(d, CreateForm(d, data).value)
    ensures Sound(d, Run(d, CreateForm(d, data).value, commands))
    ensures CarefulRun(d, CreateForm(d, data).value, commands) ==> Honest(d, Run(d, CreateForm(d, data).value, commands))
    decreases |commands|
  {
    var s := CreateForm(d, data).value;
    CreatedFormIsSound(d, data);
    if commands != [] && CarefulRun(d, s, commands) {
      hide Sound, Honest, Careful, Apply, WellFormedDefinition, CreateForm;
      var front, last := commands[..|commands| - 1], commands[|commands| - 1];
      ReachableFormsAreSound(d, data, front);
      StepsAreHonest(d, Run(d, s, front), last);
    }
  }
}
