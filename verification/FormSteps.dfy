/** The loops of the form's operations over its two parallel structures, and how they meet in rows. */
module FormSteps {
  import opened Json
  import opened FormModel
  import opened ArrayOperations
  import opened Toggles

  // -------------------------------------------------------------------- rows from their two halves

  lemma RowsHaveTheirHalves(items: seq<Item>, values: seq<Json>)
    requires |items| == |values|
    ensures RowItems(RowsOf(items, values)) == items && RowValues(RowsOf(items, values)) == values
  {
  }

  /** Inserting into the data and into the items is inserting a row. */
  lemma InsertedHalves(d: Definition, s: State, k: nat, i: nat, value: Json)
    requires Shaped(d, s) && Aligned(d, s) && k < |d.arrays| && i <= |s.arrays[k].items| && CanHoldArray(d, s, k)
    ensures var data := SetBound(s.data, d.arrays[k].binding,
                                 Array(InsertAt(ValuesAt(s.data, d.arrays[k].binding), i, value)));
            && data.Some?
            && InsertedRow(d, s, k, i, value)
            == s.(data := data.value,
                  arrays := s.arrays[k := s.arrays[k].(items :=
                    InsertAt(s.arrays[k].items, i, NewItem(d.arrays[k], s.nextIdentity)))],
                  nextIdentity := s.nextIdentity + 1, batches := [], dataRevision := s.dataRevision + 1,
                  stateRevision := s.stateRevision + 1)
  {
    var list, values, items := d.arrays[k], ValuesAt(s.data, d.arrays[k].binding), s.arrays[k].items;
    var rows := InsertAt(Rows(d, s, k), i, FreshRow(list, s.nextIdentity, value));
    HoldsAnyArray(d, s, k, Array(InsertAt(values, i, value)));
    hide SetBound, ValuesAt;
    assert RowValues(rows) == InsertAt(values, i, value);
    assert RowItems(rows) == InsertAt(items, i, NewItem(list, s.nextIdentity));
  }

  lemma RemovedHalves(d: Definition, s: State, k: nat, i: nat)
    requires Shaped(d, s) && Aligned(d, s) && k < |d.arrays| && i < |s.arrays[k].items|
    ensures RowValues(RemoveAt(Rows(d, s, k), i)) == RemoveAt(ValuesAt(s.data, d.arrays[k].binding), i)
    ensures RowItems(RemoveAt(Rows(d, s, k), i)) == RemoveAt(s.arrays[k].items, i)
  {
    hide ValuesAt;
  }

  lemma SwappedHalves(d: Definition, s: State, k: nat, i: nat, j: nat)
    requires Shaped(d, s) && Aligned(d, s) && k < |d.arrays| && i < |s.arrays[k].items| && j < |s.arrays[k].items|
    ensures RowValues(SwapAt(Rows(d, s, k), i, j)) == SwapAt(ValuesAt(s.data, d.arrays[k].binding), i, j)
    ensures RowItems(SwapAt(Rows(d, s, k), i, j)) == SwapAt(s.arrays[k].items, i, j)
  {
    hide ValuesAt;
  }

  // --------------------------------------------------------------- dropping all carriers of a value

  /** The indices of the members that equal the value, in order. */
  function CarryingOf(members: seq<Json>, value: Json): (carrying: seq<nat>)
  {
    if members == [] then []
    else
      var last := |members| - 1;
      CarryingOf(members[..last], value) + if JsonEqual(members[last], value) then [last] else []
  }

  method CarryingIndices(members: seq<Json>, value: Json) returns (carrying: seq<nat>)
    ensures carrying == CarryingOf(members, value)
  {
    carrying := [];
    for i := 0 to |members|
      invariant carrying == CarryingOf(members[..i], value)
    {
      hide JsonEqual;
      assert members[..i + 1][..i] == members[..i];
      if JsonEqual(members[i], value) {
        carrying := carrying + [i];
      }
    }
    assert members[..|members|] == members;
  }

  /** The last index found is that of the last carrier, and the others are those before it. */
  lemma {:induction false} LastCarrier(members: seq<Json>, value: Json)
    requires CarryingOf(members, value) != []
    ensures var carrying := CarryingOf(members, value);
            var c := carrying[|carrying| - 1];
            && c < |members| && JsonEqual(members[c], value)
            && (forall i | c < i < |members| :: !JsonEqual(members[i], value))
            && CarryingOf(members[..c], value) == carrying[..|carrying| - 1]
  {
    hide JsonEqual;
    var last := |members| - 1;
    if !JsonEqual(members[last], value) {
      LastCarrier(members[..last], value);
      var c := CarryingOf(members[..last], value)[|CarryingOf(members[..last], value)| - 1];
      assert members[..last][..c] == members[..c];
      assert CarryingOf(members[..last], value) + [] == CarryingOf(members[..last], value);
    }
  }

  lemma {:induction false} NoCarrierFound(members: seq<Json>, value: Json)
    ensures CarryingOf(members, value) == [] <==> forall i | 0 <= i < |members| :: !JsonEqual(members[i], value)
  {
    hide JsonEqual;
    if members != [] {
      var front, last := members[..|members| - 1], members[|members| - 1];
      NoCarrierFound(front, value);
      assert CarryingOf(members, value) == [] <==> CarryingOf(front, value) == [] && !JsonEqual(last, value);
      hide CarryingOf;
      assert forall i | 0 <= i < |front| :: members[i] == front[i];
    }
  }

  lemma {:induction false} WithoutOfSum(a: seq<Row>, b: seq<Row>, v: Json)
    ensures Without(a + b, v) == Without(a, v) + Without(b, v)
    decreases |b|
  {
    if b == [] {
      assert a + b == a;
    } else {
      hide JsonEqual;
      WithoutOfSum(a, b[..|b| - 1], v);
      assert (a + b)[..|a + b| - 1] == a + b[..|b| - 1];
    }
  }

  lemma {:induction false} WithOfSum(a: seq<Row>, b: seq<Row>, v: Json)
    ensures With(a + b, v) == With(a, v) + With(b, v)
    decreases |b|
  {
    if b == [] {
      assert a + b == a;
    } else {
      hide JsonEqual;
      WithOfSum(a, b[..|b| - 1], v);
      assert (a + b)[..|a + b| - 1] == a + b[..|b| - 1];
    }
  }

  lemma {:induction false} NoCarriers(rows: seq<Row>, v: Json)
    requires forall i | 0 <= i < |rows| :: !JsonEqual(rows[i].value, v)
    ensures Without(rows, v) == rows && With(rows, v) == []
  {
    if rows != [] {
      hide JsonEqual;
      NoCarriers(rows[..|rows| - 1], v);
      assert rows == rows[..|rows| - 1] + [rows[|rows| - 1]];
    }
  }

  lemma OneCarrier(row: Row, v: Json)
    requires JsonEqual(row.value, v)
    ensures Without([row], v) == [] && With([row], v) == [row]
  {
    hide JsonEqual;
    assert [row][..0] == [];
  }

  /** A carrier, then rows that carry nothing, then the rest. */
  lemma CarrierThenRest(row: Row, between: seq<Row>, rest: seq<Row>, v: Json)
    requires JsonEqual(row.value, v) && forall i | 0 <= i < |between| :: !JsonEqual(between[i].value, v)
    ensures Without([row] + (between + rest), v) == between + Without(rest, v)
    ensures With([row] + (between + rest), v) == [row] + With(rest, v)
  {
    hide Without, With, JsonEqual;
    NoCarriers(between, v);
    OneCarrier(row, v);
    WithoutOfSum(between, rest, v);
    WithOfSum(between, rest, v);
    WithoutOfSum([row], between + rest, v);
    WithOfSum([row], between + rest, v);
    assert [] + (between + Without(rest, v)) == between + Without(rest, v);
    assert [] + With(rest, v) == With(rest, v);
  }

  /** What is left once the carriers from one index on are gone. */
  ghost function LeftFrom(rows: seq<Row>, b: nat, v: Json): seq<Row>
    requires b <= |rows|
  {
    rows[..b] + Without(rows[b..], v)
  }

  lemma RemovingOneMore(rows: seq<Row>, c: nat, b: nat, v: Json)
    requires c < b <= |rows| && JsonEqual(rows[c].value, v)
    requires forall i | c < i < b :: !JsonEqual(rows[i].value, v)
    ensures c < |LeftFrom(rows, b, v)| && LeftFrom(rows, b, v)[c] == rows[c]
    ensures RemoveAt(LeftFrom(rows, b, v), c) == LeftFrom(rows, c, v)
    ensures With(rows[c..], v) == [rows[c]] + With(rows[b..], v)
  {
    hide Without, With, JsonEqual;
    var between := rows[c + 1..b];
    CarrierThenRest(rows[c], between, rows[b..], v);
    assert rows[c..] == [rows[c]] + (between + rows[b..]);
    CarrierLeaves(rows, c, b, Without(rows[b..], v));
  }

  lemma CarrierLeaves(rows: seq<Row>, c: nat, b: nat, rest: seq<Row>)
    requires c < b <= |rows|
    ensures (rows[..b] + rest)[c] == rows[c]
    ensures RemoveAt(rows[..b] + rest, c) == rows[..c] + (rows[c + 1..b] + rest)
  {
  }

  lemma NothingLeavesBefore(rows: seq<Row>, b: nat, v: Json)
    requires b <= |rows| && forall i | 0 <= i < b :: !JsonEqual(rows[i].value, v)
    ensures LeftFrom(rows, b, v) == Without(rows, v) && With(rows[b..], v) == With(rows, v)
  {
    NoCarriers(rows[..b], v);
    WithoutOfSum(rows[..b], rows[b..], v);
    WithOfSum(rows[..b], rows[b..], v);
    hide Without, With, JsonEqual;
    assert rows == rows[..b] + rows[b..];
  }

  function Reversed(ids: seq<nat>): (reversed: seq<nat>)
    ensures |reversed| == |ids| && forall i | 0 <= i < |ids| :: reversed[i] == ids[|ids| - 1 - i]
  {
    seq(|ids|, i requires 0 <= i < |ids| => ids[|ids| - 1 - i])
  }

  /** Removing one more carrier from both halves. */
  lemma HalvesLoseOne(rows: seq<Row>, c: nat, b: nat, v: Json, values: seq<Json>, items: seq<Item>, removed: seq<nat>)
    requires c < b <= |rows| && JsonEqual(rows[c].value, v)
    requires forall i | c < i < b :: !JsonEqual(rows[i].value, v)
    requires values == RowValues(LeftFrom(rows, b, v)) && items == RowItems(LeftFrom(rows, b, v))
    requires Reversed(removed) == RowIds(With(rows[b..], v))
    ensures c < |values| == |items| && items[c].identity == rows[c].identity
    ensures RemoveAt(values, c) == RowValues(LeftFrom(rows, c, v)) && RemoveAt(items, c) == RowItems(LeftFrom(rows, c, v))
    ensures Reversed(removed + [rows[c].identity]) == RowIds(With(rows[c..], v))
  {
    RemovingOneMore(rows, c, b, v);
    hide LeftFrom, With, JsonEqual;
    var left := LeftFrom(rows, b, v);
    assert RowValues(RemoveAt(left, c)) == RemoveAt(RowValues(left), c);
    assert RowItems(RemoveAt(left, c)) == RemoveAt(RowItems(left), c);
    assert Reversed(removed + [rows[c].identity]) == [rows[c].identity] + Reversed(removed);
    assert RowIds([rows[c]] + With(rows[b..], v)) == [rows[c].identity] + RowIds(With(rows[b..], v));
  }

  lemma NothingLeftYet(rows: seq<Row>, v: Json)
    ensures LeftFrom(rows, |rows|, v) == rows && With(rows[|rows|..], v) == []
  {
    assert rows[|rows|..] == [];
  }

  lemma LastCarrierInRows(rows: seq<Row>, values: seq<Json>, carrying: seq<nat>, b: nat, v: Json)
    requires b <= |rows| == |values| && forall i | 0 <= i < |rows| :: rows[i].value == values[i]
    requires carrying == CarryingOf(values[..b], v) && carrying != []
    ensures var c := carrying[|carrying| - 1];
            && c < b && JsonEqual(rows[c].value, v) && (forall i | c < i < b :: !JsonEqual(rows[i].value, v))
            && CarryingOf(values[..c], v) == carrying[..|carrying| - 1]
  {
    hide JsonEqual, CarryingOf;
    LastCarrier(values[..b], v);
    var c := carrying[|carrying| - 1];
    assert values[..b][..c] == values[..c];
    forall i | c < i < b ensures !JsonEqual(rows[i].value, v) {
      assert values[..b][i] == rows[i].value;
    }
  }

  lemma NoCarrierInRows(rows: seq<Row>, values: seq<Json>, b: nat, v: Json)
    requires b <= |rows| == |values| && forall i | 0 <= i < |rows| :: rows[i].value == values[i]
    requires CarryingOf(values[..b], v) == []
    ensures forall i | 0 <= i < b :: !JsonEqual(rows[i].value, v)
  {
    hide JsonEqual, CarryingOf;
    NoCarrierFound(values[..b], v);
    forall i | 0 <= i < b ensures !JsonEqual(rows[i].value, v) {
      assert values[..b][i] == rows[i].value;
    }
  }

  /** The carriers from one index on are gone from both halves; `count` of them are still there. */
  ghost predicate Halfway(rows: seq<Row>, values: seq<Json>, carrying: seq<nat>, value: Json, count: nat, b: nat,
                          keptValues: seq<Json>, keptItems: seq<Item>, removed: seq<nat>) {
    && count <= |carrying| && b <= |rows| == |values| && (forall i | 0 <= i < |rows| :: rows[i].value == values[i])
    && carrying[..count] == CarryingOf(values[..b], value)
    && keptValues == RowValues(LeftFrom(rows, b, value)) && keptItems == RowItems(LeftFrom(rows, b, value))
    && Reversed(removed) == RowIds(With(rows[b..], value))
  }

  lemma HalfwayAdvances(rows: seq<Row>, values: seq<Json>, carrying: seq<nat>, value: Json, count: nat, b: nat,
                        keptValues: seq<Json>, keptItems: seq<Item>, removed: seq<nat>)
    requires count > 0 && Halfway(rows, values, carrying, value, count, b, keptValues, keptItems, removed)
    ensures var c := carrying[count - 1];
            && c < |keptValues| == |keptItems|
            && Halfway(rows, values, carrying, value, count - 1, c, RemoveAt(keptValues, c), RemoveAt(keptItems, c),
                       removed + [keptItems[c].identity])
  {
    hide JsonEqual, LeftFrom, With, CarryingOf, RemoveAt;
    LastCarrierInRows(rows, values, carrying[..count], b, value);
    assert carrying[..count][..count - 1] == carrying[..count - 1];
    HalvesLoseOne(rows, carrying[count - 1], b, value, keptValues, keptItems, removed);
  }

  lemma HalfwayEnds(rows: seq<Row>, values: seq<Json>, carrying: seq<nat>, value: Json, b: nat,
                    keptValues: seq<Json>, keptItems: seq<Item>, removed: seq<nat>)
    requires Halfway(rows, values, carrying, value, 0, b, keptValues, keptItems, removed)
    ensures keptValues == RowValues(Without(rows, value)) && keptItems == RowItems(Without(rows, value))
    ensures Reversed(removed) == RowIds(With(rows, value))
  {
    hide JsonEqual, With, CarryingOf;
    NoCarrierInRows(rows, values, b, value);
    NothingLeavesBefore(rows, b, value);
  }

  /** Removes the carriers from both halves, last first; the removed identities come out in their former order. */
  method RemoveCarriers(values: seq<Json>, items: seq<Item>, value: Json, carrying: seq<nat>)
    returns (keptValues: seq<Json>, keptItems: seq<Item>, removed: seq<nat>)
    requires |values| == |items| && carrying == CarryingOf(values, value)
    ensures keptValues == RowValues(Without(RowsOf(items, values), value))
    ensures keptItems == RowItems(Without(RowsOf(items, values), value))
    ensures removed == RowIds(With(RowsOf(items, values), value))
  {
    ghost var rows := RowsOf(items, values);
    ghost var b: nat := |rows|;
    keptValues, keptItems, removed := values, items, [];
    RowsHaveTheirHalves(items, values);
    NothingLeftYet(rows, value);
    assert values[..|values|] == values && carrying[..|carrying|] == carrying;
    hide JsonEqual, With, LeftFrom;
    for p := |carrying| downto 0
      invariant Halfway(rows, values, carrying, value, p, b, keptValues, keptItems, removed)
    {
      hide Halfway;
      HalfwayAdvances(rows, values, carrying, value, p + 1, b, keptValues, keptItems, removed);
      var index := carrying[p];
      keptValues := RemoveAt(keptValues, index);
      removed := removed + [keptItems[index].identity];
      keptItems := RemoveAt(keptItems, index);
      b := index;
    }
    HalfwayEnds(rows, values, carrying, value, b, keptValues, keptItems, removed);
    removed := Reversed(removed);
  }

  // --------------------------------------------------------------------------- both halves as read

  /** After an insertion, the items behind the new one are those that stood from its place on. */
  lemma InsertedItems(d: Definition, s: State, k: nat, i: nat, value: Json)
    requires Shaped(d, s) && Aligned(d, s) && k < |d.arrays| && i <= |s.arrays[k].items| && CanHoldArray(d, s, k)
    ensures |InsertedRow(d, s, k, i, value).arrays| == |s.arrays|
    ensures var items := InsertedRow(d, s, k, i, value).arrays[k].items;
            && |items| == |s.arrays[k].items| + 1
            && Ids(items[i + 1..]) == Ids(s.arrays[k].items[i..]) == RowIds(Rows(d, s, k)[i..])
  {
    InsertedHalves(d, s, k, i, value);
    hide InsertedRow, ValuesAt, SetBound;
    assert InsertAt(s.arrays[k].items, i, NewItem(d.arrays[k], s.nextIdentity))[i + 1..] == s.arrays[k].items[i..];
    assert Rows(d, s, k)[i..] == RowsOf(s.arrays[k].items[i..], ValuesAt(s.data, d.arrays[k].binding)[i..]);
  }

  lemma CarriersAreFound(d: Definition, s: State, k: nat, v: Json)
    requires Shaped(d, s) && Aligned(d, s) && k < |d.arrays|
    ensures Carries(Rows(d, s, k), v) <==> CarryingOf(ValuesAt(s.data, d.arrays[k].binding), v) != []
  {
    NoCarrierFound(ValuesAt(s.data, d.arrays[k].binding), v);
    hide CarryingOf, ValuesAt, JsonEqual;
  }

  /** The place of a new member, found in the data. */
  function PlaceOf(options: seq<Json>, o: nat, members: seq<Json>): (i: nat)
    ensures i <= |members|
  {
    if members == [] || ComesLater(options, o, members[0]) then 0 else 1 + PlaceOf(options, o, members[1..])
  }

  lemma {:induction false} SamePlace(options: seq<Json>, o: nat, members: seq<Json>, rows: seq<Row>)
    requires |rows| == |members| && forall i | 0 <= i < |rows| :: rows[i].value == members[i]
    ensures PlaceOf(options, o, members) == Toggles.Place(options, o, rows)
  {
    if members != [] {
      hide ComesLater;
      SamePlace(options, o, members[1..], rows[1..]);
    }
  }

  lemma PlaceInRows(d: Definition, s: State, k: nat, o: nat)
    requires Shaped(d, s) && Aligned(d, s) && k < |d.arrays|
    ensures PlaceOf(d.arrays[k].Options(), o, ValuesAt(s.data, d.arrays[k].binding))
         == Toggles.Place(d.arrays[k].Options(), o, Rows(d, s, k))
  {
    SamePlace(d.arrays[k].Options(), o, ValuesAt(s.data, d.arrays[k].binding), Rows(d, s, k));
  }

  /** The first index found is that of the first carrier. */
  lemma {:induction false} FirstIsFirst(rows: seq<Row>, members: seq<Json>, v: Json)
    requires |rows| == |members| && forall i | 0 <= i < |rows| :: rows[i].value == members[i]
    requires CarryingOf(members, v) != []
    ensures CarryingOf(members, v)[0] == FirstCarrier(rows, v)
  {
    var last := |members| - 1;
    FrontCarries(rows, members, v);
    if CarryingOf(members[..last], v) != [] {
      FirstIsFirst(rows[..last], members[..last], v);
      FirstOfFront(rows, v);
    }
    hide JsonEqual;
  }

  lemma FrontCarries(rows: seq<Row>, members: seq<Json>, v: Json)
    requires |rows| == |members| > 0 && forall i | 0 <= i < |rows| :: rows[i].value == members[i]
    ensures var last := |members| - 1;
            if CarryingOf(members[..last], v) != [] then FirstCarrier(rows[..last], v) < last
            else FirstCarrier(rows, v) >= last
  {
    hide JsonEqual, CarryingOf;
    var last := |members| - 1;
    NoCarrierFound(members[..last], v);
    assert forall i | 0 <= i < last :: members[..last][i] == rows[..last][i].value == rows[i].value;
  }

  lemma FirstOfFront(rows: seq<Row>, v: Json)
    requires rows != [] && FirstCarrier(rows[..|rows| - 1], v) < |rows| - 1
    ensures FirstCarrier(rows, v) == FirstCarrier(rows[..|rows| - 1], v)
  {
    hide JsonEqual;
    var front := rows[..|rows| - 1];
    var i, j := FirstCarrier(rows, v), FirstCarrier(front, v);
    assert front[j] == rows[j];
    assert forall m | 0 <= m < |front| :: front[m] == rows[m];
  }

  /** The first index found is where the shifted survivors begin. */
  lemma FirstRemoved(d: Definition, s: State, k: nat, v: Json)
    requires Shaped(d, s) && Aligned(d, s) && k < |d.arrays|
    requires CarryingOf(ValuesAt(s.data, d.arrays[k].binding), v) != []
    ensures Carries(Rows(d, s, k), v)
    ensures CarryingOf(ValuesAt(s.data, d.arrays[k].binding), v)[0] == UpTo(Rows(d, s, k), v)
    ensures var i := UpTo(Rows(d, s, k), v);
            Ids(RowItems(Without(Rows(d, s, k), v))[i..]) == RowIds(Without(Rows(d, s, k), v)[i..])
  {
    CarriersAreFound(d, s, k, v);
    hide CarryingOf, ValuesAt, JsonEqual, Without;
    FirstIsFirst(Rows(d, s, k), ValuesAt(s.data, d.arrays[k].binding), v);
  }

  /** The carriers of a value are gone from one array, and those named are the ones that left and the ones that shifted. */
  ghost predicate IsExclusion(d: Definition, s: State, k: nat, v: Json, t: State, removed: seq<nat>, shifted: seq<nat>)
    requires Shaped(d, s) && Aligned(d, s) && k < |d.arrays|
  {
    var rows := Rows(d, s, k);
    && Carries(rows, v) && t == DataChanged(WithRows(d, s, k, Without(rows, v), s.nextIdentity))
    && removed == RowIds(With(rows, v)) && shifted == RowIds(Without(rows, v)[UpTo(rows, v)..])
  }

  lemma StoredIsExclusion(d: Definition, s: State, k: nat, v: Json, items: seq<Item>, values: seq<Json>, removed: seq<nat>)
    requires Shaped(d, s) && Aligned(d, s) && k < |d.arrays| && CanHoldArray(d, s, k)
    requires CarryingOf(ValuesAt(s.data, d.arrays[k].binding), v) != []
    requires var rows := Rows(d, s, k);
             items == RowItems(Without(rows, v)) && values == RowValues(Without(rows, v)) && removed == RowIds(With(rows, v))
    ensures SetBound(s.data, d.arrays[k].binding, Array(values)).Some?
    ensures CarryingOf(ValuesAt(s.data, d.arrays[k].binding), v)[0] <= |items|
    ensures var data := SetBound(s.data, d.arrays[k].binding, Array(values)).value;
            var t := s.(data := data, arrays := s.arrays[k := s.arrays[k].(items := items)]);
            IsExclusion(d, s, k, v, DataChanged(t), removed,
                        Ids(items[CarryingOf(ValuesAt(s.data, d.arrays[k].binding), v)[0]..]))
  {
    FirstRemoved(d, s, k, v);
    StoredHalves(d, s, k, Without(Rows(d, s, k), v));
    hide SetBound, ValuesAt, CarryingOf, With, Without, Carries, JsonEqual, WithRows, CanHoldArray, UpTo;
  }

  /** Storing the values and the items of some rows is exchanging the rows. */
  lemma StoredHalves(d: Definition, s: State, k: nat, rows: seq<Row>)
    requires k < |d.arrays| == |s.arrays| && CanHoldArray(d, s, k)
    ensures SetBound(s.data, d.arrays[k].binding, Array(RowValues(rows))).Some?
    ensures WithRows(d, s, k, rows, s.nextIdentity)
         == s.(data := SetBound(s.data, d.arrays[k].binding, Array(RowValues(rows))).value,
               arrays := s.arrays[k := s.arrays[k].(items := RowItems(rows))])
  {
    HoldsAnyArray(d, s, k, Array(RowValues(rows)));
    hide SetBound;
  }
}
