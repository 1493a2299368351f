/** The quantities of a JSON tree, and their agreement with those of every text that writes it. */
module TreeMetrics {
  import opened Bytes
  import opened Json
  import opened JsonText
  import opened KeyOrder

  /** A quantity of a value, measured on its tree; members are visited in name order. */
  ghost function ValueMeasure(q: Quantity, v: Json): nat
    decreases v, 1
  {
    match v
    case Null => OfScalar(q, 4)
    case Bool(flag) => OfScalar(q, if flag then 4 else 5)
    case Number(text) => OfScalar(q, |text|)
    case String(content) => OfScalar(q, |content|)
    case Array(items) => Combine(q, OfArray(q, |items|), ItemMeasure(q, items))
    case Object(members) => Combine(q, OfObject(q, |members|), ChildMeasure(q, members))
  }

  ghost function ItemMeasure(q: Quantity, items: seq<Json>): nat
    decreases items, 0
  {
    if items == [] then 0 else Combine(q, Nested(q, ValueMeasure(q, items[0])), ItemMeasure(q, items[1..]))
  }

  /** All members of an object together. */
  ghost function ChildMeasure(q: Quantity, members: map<Bytes, Json>): nat
    decreases Object(members), 0, |members| + 1
  {
    SortedKeysListAll(members.Keys);
    MemberMeasure(q, Object(members), SortedKeys(members.Keys))
  }

  ghost function MemberMeasure(q: Quantity, owner: Json, keys: seq<Bytes>): nat
    requires owner.Object? && forall key | key in keys :: key in owner.members
    decreases owner, 0, |keys|
  {
    if keys == [] then 0
    else Combine(q, Combine(q, OfName(q, |keys[0]|), Nested(q, ValueMeasure(q, owner.members[keys[0]]))),
                 MemberMeasure(q, owner, keys[1..]))
  }

  /** The measure of one member: its name and, one level down, its value. */
  ghost function OneMember(q: Quantity, name: Bytes, value: Json): nat {
    Combine(q, OfName(q, |name|), Nested(q, ValueMeasure(q, value)))
  }

  lemma FirstItem(q: Quantity, items: seq<Json>)
    requires items != []
    ensures ItemMeasure(q, items) == Combine(q, Nested(q, ValueMeasure(q, items[0])), ItemMeasure(q, items[1..]))
  {
  }

  lemma FirstMember(q: Quantity, owner: Json, keys: seq<Bytes>)
    requires owner.Object? && keys != [] && forall key | key in keys :: key in owner.members
    ensures MemberMeasure(q, owner, keys)
         == Combine(q, OneMember(q, keys[0], owner.members[keys[0]]), MemberMeasure(q, owner, keys[1..]))
  {
  }

  lemma ArrayValue(q: Quantity, items: seq<Json>)
    ensures ValueMeasure(q, Array(items)) == Combine(q, OfArray(q, |items|), ItemMeasure(q, items))
  {
  }

  lemma ObjectValue(q: Quantity, members: map<Bytes, Json>)
    ensures ValueMeasure(q, Object(members)) == Combine(q, OfObject(q, |members|), ChildMeasure(q, members))
  {
  }

  // ------------------------------------------------ the order of members is immaterial

  lemma {:induction false} MemberPullsOut(q: Quantity, owner: Json, keys: seq<Bytes>, i: nat)
    requires owner.Object? && i < |keys| && forall key | key in keys :: key in owner.members
    ensures MemberMeasure(q, owner, keys)
         == Combine(q, OneMember(q, keys[i], owner.members[keys[i]]), MemberMeasure(q, owner, keys[..i] + keys[i + 1..]))
    decreases i
  {
    hide MemberMeasure, OneMember;
    var others := keys[..i] + keys[i + 1..];
    FirstMember(q, owner, keys);
    if i == 0 {
      assert others == keys[1..];
    } else {
      assert others[1..] == keys[1..][..i - 1] + keys[1..][i..];
      FirstMember(q, owner, others);
      MemberPullsOut(q, owner, keys[1..], i - 1);
    }
  }

  ghost predicate NoRepeats(keys: seq<Bytes>) {
    forall i, j | 0 <= i < j < |keys| :: keys[i] != keys[j]
  }

  lemma SplitKeys(keys: seq<Bytes>, i: nat)
    requires NoRepeats(keys) && i < |keys|
    ensures NoRepeats(keys[..i] + keys[i + 1..])
    ensures KeySet(keys[..i] + keys[i + 1..]) == KeySet(keys) - {keys[i]}
  {
    var others := keys[..i] + keys[i + 1..];
    assert keys == keys[..i] + [keys[i]] + keys[i + 1..];
    assert KeySet(keys) == {keys[i]} + KeySet(others);
  }

  lemma NoKeysNoListing(keys: seq<Bytes>)
    ensures keys == [] <==> KeySet(keys) == {}
  {
    assert keys != [] ==> keys[0] in KeySet(keys);
  }

  lemma {:induction false} MemberOrderIsImmaterial(q: Quantity, owner: Json, left: seq<Bytes>, right: seq<Bytes>)
    requires owner.Object? && KeySet(left) <= owner.members.Keys
    requires NoRepeats(left) && NoRepeats(right) && KeySet(left) == KeySet(right)
    ensures forall key | key in left || key in right :: key in owner.members
    ensures MemberMeasure(q, owner, left) == MemberMeasure(q, owner, right)
    decreases |left|
  {
    assert forall key | key in left || key in right :: key in KeySet(left);
    if left == [] {
      NoKeysNoListing(left);
      NoKeysNoListing(right);
    } else {
      hide MemberMeasure, OneMember;
      assert left[0] in KeySet(right);
      var i :| 0 <= i < |right| && right[i] == left[0];
      SplitKeys(left, 0);
      SplitKeys(right, i);
      assert left[..0] + left[1..] == left[1..];
      FirstMember(q, owner, left);
      MemberPullsOut(q, owner, right, i);
      MemberOrderIsImmaterial(q, owner, left[1..], right[..i] + right[i + 1..]);
    }
  }

  lemma SortedHasNoRepeats(keys: seq<Bytes>)
    requires StrictlySorted(keys)
    ensures NoRepeats(keys)
  {
    forall i, j | 0 <= i < j < |keys| ensures keys[i] != keys[j] {
      BelowIsTotal(keys[i], keys[j]);
    }
  }

  lemma {:induction false} MembersAloneMatter(q: Quantity, owner: Json, other: Json, keys: seq<Bytes>)
    requires owner.Object? && other.Object?
    requires forall key | key in keys ::
               key in owner.members && key in other.members && owner.members[key] == other.members[key]
    ensures MemberMeasure(q, owner, keys) == MemberMeasure(q, other, keys)
    decreases |keys|
  {
    if keys == [] {
    } else {
      hide MemberMeasure;
      FirstMember(q, owner, keys);
      FirstMember(q, other, keys);
      MembersAloneMatter(q, owner, other, keys[1..]);
    }
  }

  lemma AnyListingMeasures(q: Quantity, members: map<Bytes, Json>, keys: seq<Bytes>)
    requires NoRepeats(keys) && KeySet(keys) == members.Keys
    ensures forall key | key in keys :: key in members
    ensures ChildMeasure(q, members) == MemberMeasure(q, Object(members), keys)
  {
    SortedKeysListAll(members.Keys);
    SortedHasNoRepeats(SortedKeys(members.Keys));
    MemberOrderIsImmaterial(q, Object(members), SortedKeys(members.Keys), keys);
  }

  lemma ListingWith(keys: set<Bytes>, name: Bytes)
    requires name !in keys
    ensures NoRepeats([name] + SortedKeys(keys)) && KeySet([name] + SortedKeys(keys)) == keys + {name}
    ensures forall key | key in SortedKeys(keys) :: key in keys
  {
    SortedKeysListAll(keys);
    SortedHasNoRepeats(SortedKeys(keys));
  }

  /** Adding a member adds its name and its value. */
  lemma AddedMember(q: Quantity, members: map<Bytes, Json>, name: Bytes, value: Json)
    requires name !in members
    ensures ChildMeasure(q, members[name := value]) == Combine(q, OneMember(q, name, value), ChildMeasure(q, members))
  {
    hide MemberMeasure, ValueMeasure;
    var larger, keys := members[name := value], SortedKeys(members.Keys);
    ListingWith(members.Keys, name);
    AnyListingMeasures(q, larger, [name] + keys);
    assert ([name] + keys)[1..] == keys;
    FirstMember(q, Object(larger), [name] + keys);
    MembersAloneMatter(q, Object(larger), Object(members), keys);
  }

  // ------------------------------------------------------------- texts and their values

  /** No object of the text gives the same name to two members. */
  ghost predicate DistinctNames(t: Text)
    requires ValidText(t)
    decreases t, 0
  {
    match t
    case ArrayText(_, elements) => DistinctInElements(elements)
    case ObjectText(_, entries) => DistinctInEntries(entries)
    case _ => true
  }

  ghost predicate DistinctInElements(elements: seq<Padded>)
    requires ValidElements(elements)
    decreases elements, 0
  {
    elements == [] || (DistinctNames(elements[0].text) && DistinctInElements(elements[1..]))
  }

  ghost predicate DistinctInEntries(entries: seq<Entry>)
    requires ValidEntries(entries)
    decreases entries, 0
  {
    entries == [] ||
    (&& Decoded(entries[0].name) !in EntryValues(entries[1..])
     && DistinctNames(entries[0].value.text) && DistinctInEntries(entries[1..]))
  }

  lemma CollectionsUnfold(q: Quantity, t: Text)
    requires ValidText(t)
    ensures t.ArrayText? ==>
              && DistinctNames(t) == DistinctInElements(t.elements) && ValueOf(t) == Array(ElementValues(t.elements))
              && TextMeasure(q, t) == Combine(q, OfArray(q, |t.elements|), ElementMeasure(q, t.elements))
    ensures t.ObjectText? ==>
              && DistinctNames(t) == DistinctInEntries(t.entries) && ValueOf(t) == Object(EntryValues(t.entries))
              && TextMeasure(q, t) == Combine(q, OfObject(q, |t.entries|), EntryMeasure(q, t.entries))
    ensures !t.ArrayText? && !t.ObjectText? ==> DistinctNames(t) && TextMeasure(q, t) == ValueMeasure(q, ValueOf(t))
  {
  }

  /** A text without repeated names measures like the tree it writes. */
  lemma {:induction false} TextMeasuresItsTree(q: Quantity, t: Text)
    requires ValidText(t) && DistinctNames(t)
    ensures TextMeasure(q, t) == ValueMeasure(q, ValueOf(t))
    decreases t, 0
  {
    hide TextMeasure, ValueMeasure, ElementMeasure, EntryMeasure, DistinctInElements, DistinctInEntries;
    CollectionsUnfold(q, t);
    match t
    case ArrayText(_, elements) =>
      ElementsMeasureTheirTrees(q, elements);
      ArrayValue(q, ElementValues(elements));
    case ObjectText(_, entries) =>
      EntriesMeasureTheirTree(q, entries);
      ObjectValue(q, EntryValues(entries));
    case _ =>
  }

  lemma {:induction false} ElementsMeasureTheirTrees(q: Quantity, elements: seq<Padded>)
    requires ValidElements(elements) && DistinctInElements(elements)
    ensures ElementMeasure(q, elements) == ItemMeasure(q, ElementValues(elements))
    decreases elements, 0
  {
    if elements == [] {
    } else {
      assert ElementValues(elements)[1..] == ElementValues(elements[1..]);
      TextMeasuresItsTree(q, elements[0].text);
      ElementsMeasureTheirTrees(q, elements[1..]);
      FirstItem(q, ElementValues(elements));
    }
  }

  lemma {:induction false} EntriesMeasureTheirTree(q: Quantity, entries: seq<Entry>)
    requires ValidEntries(entries) && DistinctInEntries(entries)
    ensures |EntryValues(entries)| == |entries| && EntryMeasure(q, entries) == ChildMeasure(q, EntryValues(entries))
    decreases entries, 0
  {
    if entries == [] {
      assert SortedKeys({}) == [];
    } else {
      hide ValueMeasure, TextMeasure, ChildMeasure;
      TextMeasuresItsTree(q, entries[0].value.text);
      EntriesMeasureTheirTree(q, entries[1..]);
      AddedMember(q, EntryValues(entries[1..]), Decoded(entries[0].name), ValueOf(entries[0].value.text));
    }
  }

  /** A text counts at least the members of its tree, and more as soon as it repeats a name. */
  lemma {:induction false} RepeatedNamesCountTwice(t: Text)
    requires ValidText(t)
    ensures TextMeasure(Members, t) >= ValueMeasure(Members, ValueOf(t))
    ensures !DistinctNames(t) ==> TextMeasure(Members, t) > ValueMeasure(Members, ValueOf(t))
    decreases t, 0
  {
    hide TextMeasure, ValueMeasure, ElementMeasure, EntryMeasure, DistinctInElements, DistinctInEntries;
    CollectionsUnfold(Members, t);
    match t
    case ArrayText(_, elements) =>
      RepeatsInElements(elements);
      ArrayValue(Members, ElementValues(elements));
    case ObjectText(_, entries) =>
      RepeatsInEntries(entries);
      ObjectValue(Members, EntryValues(entries));
    case _ =>
  }

  lemma {:induction false} RepeatsInElements(elements: seq<Padded>)
    requires ValidElements(elements)
    ensures ElementMeasure(Members, elements) >= ItemMeasure(Members, ElementValues(elements))
    ensures !DistinctInElements(elements) ==>
              ElementMeasure(Members, elements) > ItemMeasure(Members, ElementValues(elements))
    decreases elements, 0
  {
    if elements == [] {
    } else {
      assert ElementValues(elements)[1..] == ElementValues(elements[1..]);
      RepeatedNamesCountTwice(elements[0].text);
      RepeatsInElements(elements[1..]);
      FirstItem(Members, ElementValues(elements));
    }
  }

  lemma {:induction false} RepeatsInEntries(entries: seq<Entry>)
    requires ValidEntries(entries)
    ensures |entries| + EntryMeasure(Members, entries)
         >= |EntryValues(entries)| + ChildMeasure(Members, EntryValues(entries))
    ensures !DistinctInEntries(entries) ==>
              |entries| + EntryMeasure(Members, entries)
              > |EntryValues(entries)| + ChildMeasure(Members, EntryValues(entries))
    decreases entries, 0
  {
    if entries == [] {
      assert SortedKeys({}) == [];
    } else {
      hide ValueMeasure, TextMeasure, ChildMeasure, DistinctNames;
      var name, value := Decoded(entries[0].name), ValueOf(entries[0].value.text);
      var rest := EntryValues(entries[1..]);
      RepeatedNamesCountTwice(entries[0].value.text);
      RepeatsInEntries(entries[1..]);
      if name in rest {
        assert EntryValues(entries) == rest;
      } else {
        AddedMember(Members, rest, name, value);
      }
    }
  }

  /** In no quantity does a tree exceed a text that writes it, whatever names the text repeats. */
  lemma {:induction false} TextMeasuresAtLeastItsTree(q: Quantity, t: Text)
    requires ValidText(t)
    ensures TextMeasure(q, t) >= ValueMeasure(q, ValueOf(t))
    decreases t, 0
  {
    hide TextMeasure, ValueMeasure, ElementMeasure, EntryMeasure;
    CollectionsUnfold(q, t);
    match t
    case ArrayText(_, elements) =>
      ElementsMeasureAtLeast(q, elements);
      ArrayValue(q, ElementValues(elements));
    case ObjectText(_, entries) =>
      RepeatedNamesCountTwice(t);
      EntriesMeasureAtLeast(q, entries);
      ObjectValue(q, EntryValues(entries));
    case _ =>
  }

  lemma {:induction false} ElementsMeasureAtLeast(q: Quantity, elements: seq<Padded>)
    requires ValidElements(elements)
    ensures ElementMeasure(q, elements) >= ItemMeasure(q, ElementValues(elements))
    decreases elements, 0
  {
    if elements == [] {
    } else {
      assert ElementValues(elements)[1..] == ElementValues(elements[1..]);
      TextMeasuresAtLeastItsTree(q, elements[0].text);
      ElementsMeasureAtLeast(q, elements[1..]);
      FirstItem(q, ElementValues(elements));
    }
  }

  lemma FirstEntry(q: Quantity, entries: seq<Entry>)
    requires ValidEntries(entries) && entries != []
    ensures var name, text := Decoded(entries[0].name), entries[0].value.text;
            && EntryMeasure(q, entries)
            == Combine(q, Combine(q, OfName(q, |name|), Nested(q, TextMeasure(q, text))), EntryMeasure(q, entries[1..]))
            && var rest := EntryValues(entries[1..]);
               EntryValues(entries) == if name in rest then rest else rest[name := ValueOf(text)]
  {
  }

  /** A larger part and a larger rest make a larger whole, and a part never takes away from the rest. */
  lemma CombineGrows(q: Quantity, name: nat, text: nat, value: nat, rest: nat, least: nat)
    requires text >= value && rest >= least
    ensures Combine(q, Combine(q, name, Nested(q, text)), rest) >= least
    ensures Combine(q, Combine(q, name, Nested(q, text)), rest) >= Combine(q, Combine(q, name, Nested(q, value)), least)
  {
  }

  lemma {:induction false} EntriesMeasureAtLeast(q: Quantity, entries: seq<Entry>)
    requires ValidEntries(entries)
    ensures |EntryValues(entries)| <= |entries| && EntryMeasure(q, entries) >= ChildMeasure(q, EntryValues(entries))
    decreases entries, 0
  {
    if entries == [] {
      assert SortedKeys({}) == [];
    } else {
      FirstEntry(q, entries);
      hide ValueMeasure, TextMeasure, ChildMeasure, EntryMeasure, EntryValues, Combine, Nested, OfName;
      var name, text := Decoded(entries[0].name), entries[0].value.text;
      var rest := EntryValues(entries[1..]);
      TextMeasuresAtLeastItsTree(q, text);
      EntriesMeasureAtLeast(q, entries[1..]);
      CombineGrows(q, OfName(q, |name|), TextMeasure(q, text), ValueMeasure(q, ValueOf(text)),
                   EntryMeasure(q, entries[1..]), ChildMeasure(q, rest));
      if name !in rest {
        AddedMember(q, rest, name, ValueOf(text));
      }
    }
  }

  /** The scanned text and the parsed tree agree in every quantity exactly when no object repeats a name. */
  lemma TextAndTreeAgree(t: Text)
    requires ValidText(t)
    ensures (forall q: Quantity :: TextMeasure(q, t) == ValueMeasure(q, ValueOf(t))) <==> DistinctNames(t)
  {
    if DistinctNames(t) {
      forall q: Quantity ensures TextMeasure(q, t) == ValueMeasure(q, ValueOf(t)) {
        TextMeasuresItsTree(q, t);
      }
    } else {
      RepeatedNamesCountTwice(t);
    }
  }
}
