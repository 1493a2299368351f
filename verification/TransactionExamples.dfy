/** Two transactions in a form that is reached: one that fails and leaves a trace, one that misleads. */
module TransactionExamples {
  import opened Bytes
  import opened Json
  import opened FormModel
  import opened ControlEdits
  import opened Lifecycle
  import opened HostTransactions
  import opened TransactionEffects
  import opened FormRuns

  /** A form with one text. */
  function OneText(name: Bytes): Definition {
    Definition([ControlDefinition([name], StringControl, false, [])], [])
  }

  function CreatedText(): State {
    State([UNTOUCHED], [], 1, [], Object(map[]), Object(map[]), [], false, 0, 0)
  }

  function TypedText(name: Bytes, input: Bytes): State {
    State([EditState(Some(input), None, false)], [], 1, [], Object(map[]), Object(map[name := String(input)]), [], false,
          1, 1)
  }

  lemma TextIsCreated(name: Bytes)
    ensures CreateForm(OneText(name), Object(map[])) == Ok(CreatedText())
  {
    assert UntouchedEdits(1) == [UNTOUCHED];
    assert LiveIds([]) == [];
  }

  lemma TextIsLocated(name: Bytes)
    ensures Locate(OneText(name), CreatedText(), [name]) == Some(Static(0))
  {
    assert [] + [name] == [name];
  }

  lemma TextResolves(name: Bytes, input: Bytes)
    ensures Resolve(Object(map[]), []) == Some(Object(map[])) && Resolve(Object(map[]), [name]) == None
    ensures Resolve(Object(map[name := String(input)]), [name]) == Some(String(input))
    ensures SetBound(Object(map[]), [name], String(input)) == Some(Object(map[name := String(input)]))
  {
    assert [name][1..] == [];
  }

  lemma TextIsTyped(name: Bytes, input: Bytes)
    ensures EditText(OneText(name), CreatedText(), [name], input, 0) == (TypedText(name, input), Ok(()))
  {
    TextIsLocated(name);
    TextResolves(name, input);
    hide Locate, Resolve, SetBound;
    assert [name][..0] == [];
    assert TextRefusal(OneText(name), CreatedText(), [name]).None?;
    assert [UNTOUCHED][0 := EditState(Some(input), None, false)] == [EditState(Some(input), None, false)];
    var t := EditText(OneText(name), CreatedText(), [name], input, 0).0;
    assert t.data == TypedText(name, input).data && t.edits == TypedText(name, input).edits;
  }

  /** The state is what some commands make of a form created from an object. */
  ghost predicate IsReached(d: Definition, s: State)
    requires WellFormedDefinition(d)
  {
    exists data, commands ::
      CreateForm(d, data).Ok? && Sound(d, CreateForm(d, data).value) && Run(d, CreateForm(d, data).value, commands) == s
  }

  lemma TypingRuns(d: Definition, s: State, binding: Pointer, input: Bytes)
    requires WellFormedDefinition(d) && Sound(d, s)
    ensures Run(d, s, [TypeText(binding, input, 0)]) == EditText(d, s, binding, input, 0).0
  {
    hide EditText, Sound, WellFormedDefinition;
    assert [TypeText(binding, input, 0)][..0] == [];
  }

  /** Typing into the form created from an empty object. */
  lemma TypedTextIsReached(name: Bytes, input: Bytes)
    ensures WellFormedDefinition(OneText(name)) && IsReached(OneText(name), TypedText(name, input))
  {
    assert WellFormedDefinition(OneText(name));
    hide *;
    CreatedFormIsSound(OneText(name), Object(map[]));
    TextIsCreated(name);
    TextIsTyped(name, input);
    TypingRuns(OneText(name), CreatedText(), [name], input);
    RunReaches(OneText(name), Object(map[]), [TypeText([name], input, 0)]);
  }

  lemma RunReaches(d: Definition, data: Json, commands: seq<Command>)
    requires WellFormedDefinition(d) && CreateForm(d, data).Ok? && Sound(d, CreateForm(d, data).value)
    ensures IsReached(d, Run(d, CreateForm(d, data).value, commands))
  {
    hide CreateForm, Sound, WellFormedDefinition, Run;
  }

  lemma TypedTextIsHonest(name: Bytes, input: Bytes)
    ensures Sound(OneText(name), TypedText(name, input)) && Honest(OneText(name), TypedText(name, input))
  {
    TextResolves(name, input);
    EqualToItself(String(input));
    hide Resolve, JsonEqual;
  }

  /** A failing transaction that leaves a trace: it drops the buffer, and no revision tells. */
  lemma ADeadItemWriteLeavesATrace(name: Bytes, input: Bytes, identity: nat)
    ensures WellFormedDefinition(OneText(name)) && IsReached(OneText(name), TypedText(name, input))
    ensures Shaped(OneText(name), TypedText(name, input))
    ensures var s := TypedText(name, input);
            var (t, r) := HostTransaction(OneText(name), s, s.data, [[name]], [], [ItemWrite(0, identity, [])]);
            r.Err? && t == s.(edits := [UNTOUCHED]) && t != s
  {
    var d, s, writes := OneText(name), TypedText(name, input), [ItemWrite(0, identity, [])];
    TypedTextIsReached(name, input);
    hide IsReached;
    assert writes[..0] == [] && ClearedByItemWrites([], [], writes) == ([], false);
    assert Overlap([[name]][0], [name]);
    assert ClearedByWrites(d.controls, s.edits, [[name]]) == [UNTOUCHED];
    hide ClearedByItemWrites, ClearedByWrites;
  }

  /** A transaction that misleads: it takes the text from the data and leaves it in the buffer, with no blocker, because
  no write covers it. */
  lemma AnUncoveredTransactionMisleads(name: Bytes, input: Bytes)
    ensures WellFormedDefinition(OneText(name)) && IsReached(OneText(name), TypedText(name, input))
    ensures Sound(OneText(name), TypedText(name, input)) && Honest(OneText(name), TypedText(name, input))
    ensures var (t, r) := HostTransaction(OneText(name), TypedText(name, input), Object(map[]), [], [], []);
            && r.Ok? && Sound(OneText(name), t) && !Honest(OneText(name), t)
            && t.data == Object(map[]) && t.edits == [EditState(Some(input), None, false)]
    ensures WellFormedTransaction(OneText(name), TypedText(name, input), Object(map[]), [])
    ensures !WritesCover(OneText(name), TypedText(name, input), Object(map[]), [], [], [])
  {
    var d, s := OneText(name), TypedText(name, input);
    TypedTextIsReached(name, input);
    TypedTextIsHonest(name, input);
    TextResolves(name, input);
    HostTransactionIsSound(d, s, Object(map[]), [], [], []);
    hide IsReached, Resolve, Sound;
    assert !JsonEqual(s.data, Object(map[]));
    assert ClearedByWrites(d.controls, s.edits, []) == s.edits;
    var t := HostTransaction(d, s, Object(map[]), [], [], []).0;
    assert t.data == Object(map[]) && t.edits == s.edits;
    assert !HonestEdit(d.controls[0], t.edits[0], Resolve(t.data, d.controls[0].binding));
    hide HostTransaction, WritesCover, HonestEdit;
    HonestWhenCovered(d, s, Object(map[]), [], [], []);
  }
}
