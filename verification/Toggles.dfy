/** Toggling the options of a multiple choice. */
module Toggles {
  import opened Bytes
  import opened Json
  import opened FormModel
  import opened ArrayOperations

  /** The first option that a value equals. */
  function OptionIndex(options: seq<Json>, v: Json): (o: Option<nat>)
    ensures o.Some? ==> o.value < |options| && JsonEqual(options[o.value], v)
    ensures o.Some? ==> forall i | 0 <= i < o.value :: !JsonEqual(options[i], v)
    ensures o.None? ==> forall i | 0 <= i < |options| :: !JsonEqual(options[i], v)
  {
    if options == [] then None
    else if JsonEqual(options[0], v) then Some(0)
    else
      var rest := OptionIndex(options[1..], v);
      if rest.None? then None else Some(rest.value + 1)
  }

  predicate ParentIsObject(data: Json, binding: Pointer) {
    binding != [] && Resolve(data, binding[..|binding| - 1]).Some?
    && Resolve(data, binding[..|binding| - 1]).value.Object?
  }

  /** `array_can_toggle_choice`. */
  predicate CanToggle(d: Definition, s: State, binding: Pointer) {
    var k := ArrayIndex(d.arrays, binding);
    && k.Some? && d.arrays[k.value].IsMultipleChoice()
    && if Resolve(s.data, binding).Some? then IsArrayAt(s.data, binding) else ParentIsObject(s.data, binding)
  }

  datatype Toggled = Included(inserted: Inserted) | Excluded(removed: seq<nat>, shifted: seq<nat>)

  predicate Carries(rows: seq<Row>, v: Json) {
    exists i | 0 <= i < |rows| :: JsonEqual(rows[i].value, v)
  }

  /** The rows that do not carry the value. */
  function Without(rows: seq<Row>, v: Json): seq<Row> {
    if rows == [] then []
    else
      var last := rows[|rows| - 1];
      Without(rows[..|rows| - 1], v) + if JsonEqual(last.value, v) then [] else [last]
  }

  function With(rows: seq<Row>, v: Json): seq<Row> {
    if rows == [] then []
    else
      var last := rows[|rows| - 1];
      With(rows[..|rows| - 1], v) + if JsonEqual(last.value, v) then [last] else []
  }

  predicate ComesLater(options: seq<Json>, o: nat, v: Json) {
    OptionIndex(options, v).Some? && OptionIndex(options, v).value > o
  }

  /** The place of a new member: before the first one whose option comes later. */
  function Place(options: seq<Json>, o: nat, rows: seq<Row>): (i: nat)
    ensures i <= |rows|
    ensures i < |rows| ==> ComesLater(options, o, rows[i].value)
    ensures forall j | 0 <= j < i :: !ComesLater(options, o, rows[j].value)
  {
    if rows == [] || ComesLater(options, o, rows[0].value) then 0 else 1 + Place(options, o, rows[1..])
  }

  function FirstCarrier(rows: seq<Row>, v: Json): (i: nat)
    ensures i <= |rows|
    ensures i < |rows| ==> JsonEqual(rows[i].value, v)
    ensures forall j | 0 <= j < i :: !JsonEqual(rows[j].value, v)
  {
    if rows == [] || JsonEqual(rows[0].value, v) then 0 else 1 + FirstCarrier(rows[1..], v)
  }

  /** What toggling an option does to the rows. */
  function ToggledRows(list: ArrayDefinition, rows: seq<Row>, o: nat, next: nat): seq<Row>
    requires o < |list.Options()|
  {
    var v := list.Options()[o];
    if Carries(rows, v) then Without(rows, v)
    else InsertAt(rows, Place(list.Options(), o, rows), FreshRow(list, next, v))
  }

  /** `toggle_array_choice`. */
  function Toggle(d: Definition, s: State, binding: Pointer, value: Json): (State, Result<Toggled, EditError>)
    requires Shaped(d, s) && Aligned(d, s)
  {
    if !CanToggle(d, s, binding) then (s, Err(OperationNotAllowed))
    else
      var k := ArrayIndex(d.arrays, binding).value;
      var options := d.arrays[k].Options();
      var o := OptionIndex(options, value);
      if o.None? then (s, Err(OperationNotAllowed))
      else
        var rows, v := Rows(d, s, k), options[o.value];
        if Carries(rows, v) then
          (DataChanged(WithRows(d, s, k, Without(rows, v), s.nextIdentity)),
           Ok(Excluded(RowIds(With(rows, v)), RowIds(Without(rows, v)[UpTo(rows, v)..]))))
        else
          var i := Place(options, o.value, rows);
          (InsertedRow(d, s, k, i, v), Ok(Included(Inserted(s.nextIdentity, RowIds(rows[i..])))))
  }

  /** How many surviving rows stand before the first that leaves. */
  function UpTo(rows: seq<Row>, v: Json): (i: nat)
    requires Carries(rows, v)
    ensures i <= |Without(rows, v)|
  {
    FirstCarrierBound(rows, v);
    FirstCarrier(rows, v)
  }

  lemma FirstCarrierBound(rows: seq<Row>, v: Json)
    requires Carries(rows, v)
    ensures FirstCarrier(rows, v) < |rows|
    ensures FirstCarrier(rows, v) <= |Without(rows, v)|
    ensures rows[..FirstCarrier(rows, v)] == Without(rows, v)[..FirstCarrier(rows, v)]
  {
    hide JsonEqual;
    KeptUpTo(rows, v, FirstCarrier(rows, v));
  }

  /** The rows in front of the first carrier are untouched. */
  lemma {:induction false} KeptUpTo(rows: seq<Row>, v: Json, count: nat)
    requires count <= |rows| && forall i | 0 <= i < count :: !JsonEqual(rows[i].value, v)
    ensures count <= |Without(rows, v)| && Without(rows, v)[..count] == rows[..count]
  {
    if rows != [] {
      hide JsonEqual;
      var front := rows[..|rows| - 1];
      KeptUpTo(front, v, if count == |rows| then count - 1 else count);
      if count < |rows| {
        assert front[..count] == rows[..count];
      } else {
        assert rows == front + [rows[|rows| - 1]];
        assert |front| <= |Without(front, v)|;
        WithoutIsNoLonger(front, v);
        assert Without(front, v) == front;
      }
    }
  }

  lemma {:induction false} WithoutIsNoLonger(rows: seq<Row>, v: Json)
    ensures |Without(rows, v)| <= |rows|
  {
    if rows != [] {
      WithoutIsNoLonger(rows[..|rows| - 1], v);
    }
  }

  // --------------------------------------------------------------------- what toggling keeps

  lemma {:induction false} WithoutDraws(rows: seq<Row>, v: Json, next: nat)
    requires DistinctRows(rows, next)
    ensures forall i | 0 <= i < |Without(rows, v)| :: Without(rows, v)[i] in rows && !JsonEqual(Without(rows, v)[i].value, v)
    ensures forall i, j | 0 <= i < j < |Without(rows, v)| ::
              Without(rows, v)[i].identity != Without(rows, v)[j].identity
    ensures forall row | row in rows && !JsonEqual(row.value, v) :: row in Without(rows, v)
  {
    if rows != [] {
      hide JsonEqual;
      var front, last := rows[..|rows| - 1], rows[|rows| - 1];
      WithoutDraws(front, v, next);
      assert rows == front + [last];
      forall i | 0 <= i < |Without(front, v)| ensures Without(front, v)[i].identity != last.identity {
        var j :| 0 <= j < |front| && front[j] == Without(front, v)[i];
        assert rows[j].identity != rows[|rows| - 1].identity;
      }
    }
  }

  lemma ToggledIsDrawn(list: ArrayDefinition, rows: seq<Row>, o: nat, next: nat)
    requires DistinctRows(rows, next) && o < |list.Options()|
    ensures DrawnFrom(list, rows, ToggledRows(list, rows, o, next), next, next + 1)
  {
    hide JsonEqual;
    WithoutDraws(rows, list.Options()[o], next);
    InsertedIsDrawn(list, rows, Place(list.Options(), o, rows), list.Options()[o], next);
  }

  lemma TogglableHolds(d: Definition, s: State, binding: Pointer)
    requires CanToggle(d, s, binding)
    ensures CanHoldArray(d, s, ArrayIndex(d.arrays, binding).value)
  {
    WhereSetBoundSucceeds(s.data, binding, Array([]));
  }

  lemma ToggleUnfolds(d: Definition, s: State, binding: Pointer, value: Json)
    requires Shaped(d, s) && Aligned(d, s) && Toggle(d, s, binding, value).1.Ok?
    ensures CanToggle(d, s, binding)
    ensures var k := ArrayIndex(d.arrays, binding).value;
            && OptionIndex(d.arrays[k].Options(), value).Some?
            && var o := OptionIndex(d.arrays[k].Options(), value).value;
               var next := if Carries(Rows(d, s, k), d.arrays[k].Options()[o]) then s.nextIdentity else s.nextIdentity + 1;
               Toggle(d, s, binding, value).0
               == DataChanged(WithRows(d, s, k, ToggledRows(d.arrays[k], Rows(d, s, k), o, s.nextIdentity), next))
  {
  }

  lemma ToggledIsDrawnUpTo(list: ArrayDefinition, rows: seq<Row>, o: nat, next: nat)
    requires DistinctRows(rows, next) && o < |list.Options()|
    ensures DrawnFrom(list, rows, ToggledRows(list, rows, o, next), next,
                      if Carries(rows, list.Options()[o]) then next else next + 1)
  {
    hide JsonEqual, Carries;
    ToggledIsDrawn(list, rows, o, next);
    WithoutDraws(rows, list.Options()[o], next);
  }

  /** A successful toggle exchanges the rows of the one array for the toggled ones. */
  lemma ToggleChangesRows(d: Definition, s: State, binding: Pointer, value: Json)
    requires WellFormedDefinition(d) && Sound(d, s) && Toggle(d, s, binding, value).1.Ok?
    ensures var k, t := ArrayIndex(d.arrays, binding).value, Toggle(d, s, binding, value).0;
            var o := OptionIndex(d.arrays[k].Options(), value).value;
            && Sound(d, t) && (Honest(d, s) ==> Honest(d, t))
            && Rows(d, t, k) == ToggledRows(d.arrays[k], Rows(d, s, k), o, s.nextIdentity)
            && forall l | 0 <= l < |d.arrays| && l != k :: Rows(d, t, l) == Rows(d, s, l)
  {
    ToggleUnfolds(d, s, binding, value);
    TogglableHolds(d, s, binding);
    var k := ArrayIndex(d.arrays, binding).value;
    var list, rows := d.arrays[k], Rows(d, s, k);
    var o := OptionIndex(list.Options(), value).value;
    SoundRowsAreDistinct(d, s, k);
    ToggledIsDrawnUpTo(list, rows, o, s.nextIdentity);
    hide JsonEqual, Toggle, CanToggle, Carries, ToggledRows, DrawnFrom, OptionIndex, CanHoldArray, WithRows, DistinctRows;
    var next := if Carries(rows, list.Options()[o]) then s.nextIdentity else s.nextIdentity + 1;
    DrawnChangeIsSound(d, s, k, ToggledRows(list, rows, o, s.nextIdentity), next);
  }

  lemma SoundRowsAreDistinct(d: Definition, s: State, k: nat)
    requires Sound(d, s) && k < |d.arrays|
    ensures DistinctRows(Rows(d, s, k), s.nextIdentity)
  {
    RowsAreDistinct(d, s, k);
  }

  lemma DrawnChangeIsSound(d: Definition, s: State, k: nat, rows: seq<Row>, next: nat)
    requires WellFormedDefinition(d) && Sound(d, s) && k < |d.arrays| && CanHoldArray(d, s, k)
    requires s.nextIdentity <= next && DrawnFrom(d.arrays[k], Rows(d, s, k), rows, s.nextIdentity, next)
    ensures var t := DataChanged(WithRows(d, s, k, rows, next));
            && Sound(d, t) && (Honest(d, s) ==> Honest(d, t)) && Rows(d, t, k) == rows
            && forall l | 0 <= l < |d.arrays| && l != k :: Rows(d, t, l) == Rows(d, s, l)
  {
    DrawnRowsMayReplace(d, s, k, rows, next);
    RowsChangeIsSound(d, s, k, rows, next);
    WithRowsIsAligned(d, s, k, rows, next);
  }

  lemma ToggleIsSound(d: Definition, s: State, binding: Pointer, value: Json)
    requires WellFormedDefinition(d) && Sound(d, s)
    ensures Sound(d, Toggle(d, s, binding, value).0)
    ensures Honest(d, s) ==> Honest(d, Toggle(d, s, binding, value).0)
  {
    if Toggle(d, s, binding, value).1.Ok? {
      ToggleChangesRows(d, s, binding, value);
    }
  }

  // ------------------------------------------------------------------------ toggling any list

  lemma {:induction false} WithoutSingle(rows: seq<Row>, v: Json, c: nat)
    requires c < |rows| && forall i | 0 <= i < |rows| :: JsonEqual(rows[i].value, v) <==> i == c
    ensures Without(rows, v) == RemoveAt(rows, c)
  {
    hide JsonEqual;
    var front, last := rows[..|rows| - 1], rows[|rows| - 1];
    if c < |front| {
      WithoutSingle(front, v, c);
      assert RemoveAt(rows, c) == RemoveAt(front, c) + [last];
    } else {
      KeptUpTo(front, v, |front|);
      WithoutIsNoLonger(front, v);
      assert Without(front, v) == front && RemoveAt(rows, c) == front;
    }
  }

  lemma {:induction false} WithoutLeavesNone(rows: seq<Row>, v: Json)
    ensures !Carries(Without(rows, v), v)
  {
    if rows != [] {
      hide JsonEqual;
      WithoutLeavesNone(rows[..|rows| - 1], v);
    }
  }

  /** On any array, toggling a member removes every item that carries it and no other. */
  lemma ToggledMemberIsGone(list: ArrayDefinition, rows: seq<Row>, o: nat, next: nat)
    requires o < |list.Options()| && Carries(rows, list.Options()[o]) && DistinctRows(rows, next)
    ensures !Carries(ToggledRows(list, rows, o, next), list.Options()[o])
    ensures forall row :: row in ToggledRows(list, rows, o, next)
                     <==> row in rows && !JsonEqual(row.value, list.Options()[o])
  {
    WithoutLeavesNone(rows, list.Options()[o]);
    WithoutDraws(rows, list.Options()[o], next);
  }

  /** On any array, toggling a non-member twice restores the exact list. */
  lemma ToggledTwiceIsRestored(list: ArrayDefinition, rows: seq<Row>, o: nat, next: nat, later: nat)
    requires o < |list.Options()| && !Carries(rows, list.Options()[o])
    ensures ToggledRows(list, ToggledRows(list, rows, o, next), o, later) == rows
  {
    var v, i := list.Options()[o], Place(list.Options(), o, rows);
    var row := FreshRow(list, next, v);
    assert JsonEqual(row.value, v);
    hide JsonEqual, Without, Carries, InsertAt;
    NewCarrierIsAlone(rows, i, row, v);
    assert ToggledRows(list, rows, o, next) == InsertAt(rows, i, row);
    assert ToggledRows(list, InsertAt(rows, i, row), o, later) == Without(InsertAt(rows, i, row), v);
  }

  lemma NewCarrierIsAlone(rows: seq<Row>, i: nat, row: Row, v: Json)
    requires i <= |rows| && !Carries(rows, v) && JsonEqual(row.value, v)
    ensures Carries(InsertAt(rows, i, row), v) && Without(InsertAt(rows, i, row), v) == rows
  {
    hide JsonEqual;
    var once := InsertAt(rows, i, row);
    forall j | 0 <= j < |once| ensures JsonEqual(once[j].value, v) <==> j == i {
      InsertedRowAt(rows, i, row, j);
    }
    assert once[i] == row;
    WithoutSingle(once, v, i);
    assert RemoveAt(once, i) == rows;
  }

  // ------------------------------------------------------------------ lists in option order

  ghost predicate DistinctOptions(options: seq<Json>) {
    forall i, j | 0 <= i < j < |options| :: !JsonEqual(options[i], options[j])
  }

  /** All members are options, and they stand in the order of the options. */
  ghost predicate InOptionOrder(options: seq<Json>, rows: seq<Row>) {
    && (forall i | 0 <= i < |rows| :: OptionIndex(options, rows[i].value).Some?)
    && forall i, j | 0 <= i < j < |rows| ::
         OptionIndex(options, rows[i].value).value < OptionIndex(options, rows[j].value).value
  }

  ghost predicate IsMember(options: seq<Json>, rows: seq<Row>, o: nat) {
    exists i :: 0 <= i < |rows| && OptionIndex(options, rows[i].value) == Some(o)
  }

  /** With distinct options, a value equals an option exactly when that option is the one found for it. */
  lemma OptionIsFound(options: seq<Json>, o: nat, v: Json)
    requires DistinctOptions(options) && o < |options|
    ensures JsonEqual(v, options[o]) <==> OptionIndex(options, v) == Some(o)
  {
    hide OptionIndex;
    var found := OptionIndex(options, v);
    if JsonEqual(v, options[o]) {
      EqualIsSymmetric(v, options[o]);
      if found.value < o {
        EqualIsTransitive(options[found.value], v, options[o]);
      }
    } else if found == Some(o) {
      EqualIsSymmetric(options[o], v);
    }
  }

  lemma MembersCarry(options: seq<Json>, rows: seq<Row>, o: nat)
    requires DistinctOptions(options) && o < |options|
    ensures Carries(rows, options[o]) <==> IsMember(options, rows, o)
  {
    hide JsonEqual, OptionIndex, DistinctOptions;
    forall i | 0 <= i < |rows| ensures JsonEqual(rows[i].value, options[o]) <==> OptionIndex(options, rows[i].value) == Some(o) {
      OptionIsFound(options, o, rows[i].value);
    }
  }

  /** What one toggle does to a list in option order: it flips one membership and touches nothing else. */
  ghost predicate Flipped(options: seq<Json>, rows: seq<Row>, o: nat, toggled: seq<Row>) {
    && InOptionOrder(options, toggled)
    && (forall p: nat :: IsMember(options, toggled, p) <==> if p == o then !IsMember(options, rows, p)
                                                       else IsMember(options, rows, p))
    && forall row: Row | OptionIndex(options, row.value) != Some(o) :: row in toggled <==> row in rows
  }

  lemma RemovedRow(rows: seq<Row>, c: nat, i: nat)
    requires c < |rows|
    ensures i < |rows| - 1 ==> RemoveAt(rows, c)[i] == rows[if i < c then i else i + 1]
    ensures i < |rows| && i != c ==> rows[i] == RemoveAt(rows, c)[if i < c then i else i - 1]
  {
  }

  lemma RemovalKeepsOrder(options: seq<Json>, rows: seq<Row>, c: nat)
    requires InOptionOrder(options, rows) && c < |rows|
    ensures InOptionOrder(options, RemoveAt(rows, c))
  {
    hide OptionIndex;
    var toggled := RemoveAt(rows, c);
    forall i | 0 <= i < |toggled| ensures OptionIndex(options, toggled[i].value).Some? {
      RemovedRow(rows, c, i);
    }
    forall i, j | 0 <= i < j < |toggled|
      ensures OptionIndex(options, toggled[i].value).value < OptionIndex(options, toggled[j].value).value
    {
      RemovedRow(rows, c, i);
      RemovedRow(rows, c, j);
    }
  }

  lemma RemovalFlips(options: seq<Json>, rows: seq<Row>, o: nat, c: nat)
    requires InOptionOrder(options, rows) && c < |rows| && OptionIndex(options, rows[c].value) == Some(o)
    ensures Flipped(options, rows, o, RemoveAt(rows, c))
  {
    RemovalKeepsOrder(options, rows, c);
    hide OptionIndex;
    var toggled := RemoveAt(rows, c);
    forall row: Row | OptionIndex(options, row.value) != Some(o) ensures row in toggled <==> row in rows {
      RemovedOther(rows, c, row);
    }
    forall i | 0 <= i < |toggled| ensures OptionIndex(options, toggled[i].value) != Some(o) {
      RemovedRow(rows, c, i);
    }
    SameOtherMembers(options, rows, o, toggled);
  }

  lemma RemovedOther(rows: seq<Row>, c: nat, row: Row)
    requires c < |rows| && row != rows[c]
    ensures row in RemoveAt(rows, c) <==> row in rows
  {
    assert rows == rows[..c] + [rows[c]] + rows[c + 1..];
  }

  /** Lists with the same rows apart from one option have the same members apart from that option. */
  lemma SameOtherMembers(options: seq<Json>, rows: seq<Row>, o: nat, toggled: seq<Row>)
    requires forall row: Row | OptionIndex(options, row.value) != Some(o) :: row in toggled <==> row in rows
    ensures forall p: nat | p != o :: IsMember(options, toggled, p) <==> IsMember(options, rows, p)
  {
    hide OptionIndex;
    forall p: nat | p != o ensures IsMember(options, toggled, p) <==> IsMember(options, rows, p) {
      if IsMember(options, rows, p) {
        var i :| 0 <= i < |rows| && OptionIndex(options, rows[i].value) == Some(p);
        assert rows[i] in toggled;
      }
      if IsMember(options, toggled, p) {
        var i :| 0 <= i < |toggled| && OptionIndex(options, toggled[i].value) == Some(p);
        assert toggled[i] in rows;
      }
    }
  }

  lemma InsertedRowAt(rows: seq<Row>, place: nat, row: Row, i: nat)
    requires place <= |rows|
    ensures i <= |rows| ==>
              InsertAt(rows, place, row)[i] == if i < place then rows[i] else if i == place then row else rows[i - 1]
  {
  }

  lemma InsertedOther(rows: seq<Row>, place: nat, row: Row, other: Row)
    requires place <= |rows| && other != row
    ensures other in InsertAt(rows, place, row) <==> other in rows
  {
    assert rows == rows[..place] + rows[place..];
  }

  lemma PlaceSplits(options: seq<Json>, rows: seq<Row>, o: nat, i: nat)
    requires InOptionOrder(options, rows) && !IsMember(options, rows, o) && i < |rows|
    ensures i < Place(options, o, rows) ==> OptionIndex(options, rows[i].value).value < o
    ensures Place(options, o, rows) <= i ==> OptionIndex(options, rows[i].value).value > o
  {
    hide OptionIndex, Place;
    var place := Place(options, o, rows);
    assert OptionIndex(options, rows[i].value) != Some(o);
    if place <= i {
      assert ComesLater(options, o, rows[place].value);
    } else {
      assert !ComesLater(options, o, rows[i].value);
    }
  }

  lemma InsertedPairInOrder(options: seq<Json>, rows: seq<Row>, o: nat, row: Row, i: nat, j: nat)
    requires InOptionOrder(options, rows) && !IsMember(options, rows, o) && OptionIndex(options, row.value) == Some(o)
    requires i < j <= |rows|
    ensures var toggled := InsertAt(rows, Place(options, o, rows), row);
            && OptionIndex(options, toggled[i].value).Some? && OptionIndex(options, toggled[j].value).Some?
            && OptionIndex(options, toggled[i].value).value < OptionIndex(options, toggled[j].value).value
  {
    var place := Place(options, o, rows);
    InsertedRowAt(rows, place, row, i);
    InsertedRowAt(rows, place, row, j);
    if i < place {
      PlaceSplits(options, rows, o, i);
    }
    if place < j {
      PlaceSplits(options, rows, o, j - 1);
    }
    hide OptionIndex, InsertAt, IsMember, Place;
  }

  lemma InsertionKeepsOrder(options: seq<Json>, rows: seq<Row>, o: nat, row: Row)
    requires InOptionOrder(options, rows) && !IsMember(options, rows, o) && OptionIndex(options, row.value) == Some(o)
    ensures InOptionOrder(options, InsertAt(rows, Place(options, o, rows), row))
  {
    hide OptionIndex, IsMember, Place;
    var toggled := InsertAt(rows, Place(options, o, rows), row);
    forall i | 0 <= i < |toggled| ensures OptionIndex(options, toggled[i].value).Some? {
      InsertedRowAt(rows, Place(options, o, rows), row, i);
    }
    forall i, j | 0 <= i < j < |toggled|
      ensures OptionIndex(options, toggled[i].value).value < OptionIndex(options, toggled[j].value).value
    {
      InsertedPairInOrder(options, rows, o, row, i, j);
    }
  }

  lemma InsertionFlips(options: seq<Json>, rows: seq<Row>, o: nat, row: Row)
    requires InOptionOrder(options, rows) && !IsMember(options, rows, o) && OptionIndex(options, row.value) == Some(o)
    ensures Flipped(options, rows, o, InsertAt(rows, Place(options, o, rows), row))
  {
    InsertionKeepsOrder(options, rows, o, row);
    var place := Place(options, o, rows);
    var toggled := InsertAt(rows, place, row);
    hide OptionIndex, Place, InOptionOrder;
    InsertedRowAt(rows, place, row, place);
    forall other: Row | OptionIndex(options, other.value) != Some(o) ensures other in toggled <==> other in rows {
      InsertedOther(rows, place, row, other);
    }
    hide InsertAt;
    SameOtherMembers(options, rows, o, toggled);
  }

  /** In option order, a toggle flips exactly the one membership. */
  lemma ToggleFlips(list: ArrayDefinition, rows: seq<Row>, o: nat, next: nat)
    requires o < |list.Options()| && DistinctOptions(list.Options()) && InOptionOrder(list.Options(), rows)
    ensures Flipped(list.Options(), rows, o, ToggledRows(list, rows, o, next))
  {
    var options := list.Options();
    MembersCarry(options, rows, o);
    if IsMember(options, rows, o) {
      var c :| 0 <= c < |rows| && OptionIndex(options, rows[c].value) == Some(o);
      hide JsonEqual, OptionIndex, Flipped;
      forall i | 0 <= i < |rows| ensures JsonEqual(rows[i].value, options[o]) <==> i == c {
        OptionIsFound(options, o, rows[i].value);
      }
      WithoutSingle(rows, options[o], c);
      RemovalFlips(options, rows, o, c);
    } else {
      assert JsonEqual(options[o], options[o]);
      OptionIsFound(options, o, options[o]);
      hide JsonEqual, OptionIndex, Flipped, Place;
      InsertionFlips(options, rows, o, FreshRow(list, next, options[o]));
    }
  }

  // ------------------------------------------------------------------------ runs of toggles

  function RunToggles(d: Definition, s: State, binding: Pointer, choices: seq<nat>): State
    requires WellFormedDefinition(d) && Sound(d, s) && CanToggle(d, s, binding)
    requires forall i | 0 <= i < |choices| :: choices[i] < |d.arrays[ArrayIndex(d.arrays, binding).value].Options()|
    ensures Sound(d, RunToggles(d, s, binding, choices))
  {
    if choices == [] then s
    else
      var before := RunToggles(d, s, binding, choices[..|choices| - 1]);
      var option := d.arrays[ArrayIndex(d.arrays, binding).value].Options()[choices[|choices| - 1]];
      ToggleIsSound(d, before, binding, option);
      Toggle(d, before, binding, option).0
  }

  predicate Odd(choices: seq<nat>, o: nat) {
    if choices == [] then false
    else (choices[|choices| - 1] == o) != Odd(choices[..|choices| - 1], o)
  }

  lemma StillTogglable(d: Definition, s: State, binding: Pointer, o: nat)
    requires WellFormedDefinition(d) && Sound(d, s) && CanToggle(d, s, binding)
    requires var options := d.arrays[ArrayIndex(d.arrays, binding).value].Options();
             o < |options| && DistinctOptions(options)
    ensures var options := d.arrays[ArrayIndex(d.arrays, binding).value].Options();
            && Toggle(d, s, binding, options[o]).1.Ok?
            && OptionIndex(options, options[o]) == Some(o)
            && CanToggle(d, Toggle(d, s, binding, options[o]).0, binding)
  {
    var k := ArrayIndex(d.arrays, binding).value;
    var options := d.arrays[k].Options();
    assert JsonEqual(options[o], options[o]);
    OptionIsFound(options, o, options[o]);
    TogglableHolds(d, s, binding);
    ToggleUnfolds(d, s, binding, options[o]);
    var next := if Carries(Rows(d, s, k), options[o]) then s.nextIdentity else s.nextIdentity + 1;
    var rows := ToggledRows(d.arrays[k], Rows(d, s, k), o, s.nextIdentity);
    hide JsonEqual, Toggle, ToggledRows, OptionIndex;
    HoldsAnyArray(d, s, k, Array(RowValues(rows)));
    SetBoundReadsBack(s.data, binding, Array(RowValues(rows)));
  }

  ghost predicate Untoggled(options: seq<Json>, choices: seq<nat>, row: Row) {
    forall i | 0 <= i < |choices| :: OptionIndex(options, row.value) != Some(choices[i])
  }

  /** Any run of toggles leaves the options toggled an odd number of times flipped, in option order, and every item
  of an option that was not toggled as it was. */
  lemma {:induction false} RunsOfTogglesFlip(d: Definition, s: State, binding: Pointer, choices: seq<nat>)
    requires WellFormedDefinition(d) && Sound(d, s) && CanToggle(d, s, binding)
    requires var k := ArrayIndex(d.arrays, binding).value;
             && DistinctOptions(d.arrays[k].Options()) && InOptionOrder(d.arrays[k].Options(), Rows(d, s, k))
             && forall i | 0 <= i < |choices| :: choices[i] < |d.arrays[k].Options()|
    ensures var k, t := ArrayIndex(d.arrays, binding).value, RunToggles(d, s, binding, choices);
            var options := d.arrays[k].Options();
            CanToggle(d, t, binding) && FlippedBy(options, Rows(d, s, k), choices, Rows(d, t, k))
    decreases |choices|
  {
    if choices != [] {
      var k, o := ArrayIndex(d.arrays, binding).value, choices[|choices| - 1];
      var options, before := d.arrays[k].Options(), RunToggles(d, s, binding, choices[..|choices| - 1]);
      RunsOfTogglesFlip(d, s, binding, choices[..|choices| - 1]);
      StillTogglable(d, before, binding, o);
      ToggleChangesRows(d, before, binding, options[o]);
      ToggleFlips(d.arrays[k], Rows(d, before, k), o, before.nextIdentity);
      FlipsCompose(options, Rows(d, s, k), choices, Rows(d, before, k), Rows(d, RunToggles(d, s, binding, choices), k));
    }
  }

  ghost predicate FlippedBy(options: seq<Json>, rows: seq<Row>, choices: seq<nat>, toggled: seq<Row>) {
    && InOptionOrder(options, toggled)
    && (forall p: nat :: IsMember(options, toggled, p) <==> (IsMember(options, rows, p) != Odd(choices, p)))
    && forall row: Row | Untoggled(options, choices, row) :: row in toggled <==> row in rows
  }

  lemma FlipsCompose(options: seq<Json>, rows: seq<Row>, choices: seq<nat>, before: seq<Row>, after: seq<Row>)
    requires choices != [] && FlippedBy(options, rows, choices[..|choices| - 1], before)
    requires Flipped(options, before, choices[|choices| - 1], after)
    ensures FlippedBy(options, rows, choices, after)
  {
    hide OptionIndex, IsMember, InOptionOrder;
    var front, last := choices[..|choices| - 1], choices[|choices| - 1];
    forall row: Row | Untoggled(options, choices, row) ensures row in after <==> row in rows {
      assert OptionIndex(options, row.value) != Some(choices[|choices| - 1]);
      assert forall i | 0 <= i < |front| :: front[i] == choices[i];
      assert Untoggled(options, front, row);
    }
  }
}
