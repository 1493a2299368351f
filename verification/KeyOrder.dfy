/** The order of member names: every finite set of names has exactly one sorted listing. */
module KeyOrder {
  import opened Bytes

  ghost predicate StrictlySorted(keys: seq<Bytes>) {
    forall i, j | 0 <= i < j < |keys| :: Below(keys[i], keys[j])
  }

  ghost function KeySet(keys: seq<Bytes>): set<Bytes> {
    set key | key in keys
  }

  function InsertSorted(keys: seq<Bytes>, key: Bytes): seq<Bytes> {
    if keys == [] || Below(key, keys[0]) then [key] + keys else [keys[0]] + InsertSorted(keys[1..], key)
  }

  lemma {:induction false} InsertKeepsSorted(keys: seq<Bytes>, key: Bytes)
    requires StrictlySorted(keys) && key !in keys
    ensures StrictlySorted(InsertSorted(keys, key))
    ensures KeySet(InsertSorted(keys, key)) == KeySet(keys) + {key}
  {
    if keys == [] {
    } else if Below(key, keys[0]) {
      forall j | 0 <= j < |keys| ensures Below(key, keys[j]) {
        if j > 0 {
          BelowIsTransitive(key, keys[0], keys[j]);
        }
      }
    } else {
      BelowIsTotal(key, keys[0]);
      var rest := InsertSorted(keys[1..], key);
      InsertKeepsSorted(keys[1..], key);
      assert keys == [keys[0]] + keys[1..];
      forall j | 0 <= j < |rest| ensures Below(keys[0], rest[j]) {
        assert rest[j] in KeySet(rest);
        if rest[j] != key {
          assert rest[j] in keys[1..];
        }
      }
      assert KeySet(InsertSorted(keys, key)) == {keys[0]} + KeySet(rest);
      assert KeySet(keys) == {keys[0]} + KeySet(keys[1..]);
    }
  }

  /** The names of an object in the order the code visits them. */
  ghost function SortedKeys(keys: set<Bytes>): seq<Bytes> {
    if keys == {} then []
    else
      var key :| key in keys;
      InsertSorted(SortedKeys(keys - {key}), key)
  }

  lemma {:induction false} SortedKeysListAll(keys: set<Bytes>)
    ensures StrictlySorted(SortedKeys(keys)) && KeySet(SortedKeys(keys)) == keys && |SortedKeys(keys)| == |keys|
    ensures forall key | key in SortedKeys(keys) :: key in keys
  {
    if keys != {} {
      var key :| key in keys && SortedKeys(keys) == InsertSorted(SortedKeys(keys - {key}), key);
      SortedKeysListAll(keys - {key});
      InsertKeepsSorted(SortedKeys(keys - {key}), key);
      InsertLength(SortedKeys(keys - {key}), key);
    }
    assert forall key | key in SortedKeys(keys) :: key in KeySet(SortedKeys(keys));
  }

  lemma {:induction false} InsertLength(keys: seq<Bytes>, key: Bytes)
    ensures |InsertSorted(keys, key)| == |keys| + 1
  {
    if keys != [] && !Below(key, keys[0]) {
      InsertLength(keys[1..], key);
    }
  }

  lemma {:induction false} SortedIsUnique(left: seq<Bytes>, right: seq<Bytes>)
    requires StrictlySorted(left) && StrictlySorted(right) && KeySet(left) == KeySet(right)
    ensures left == right
    decreases |left|
  {
    assert left != [] ==> left[0] in KeySet(left);
    assert right != [] ==> right[0] in KeySet(right);
    if left != [] {
      var i :| 0 <= i < |right| && right[i] == left[0];
      var j :| 0 <= j < |left| && left[j] == right[0];
      BelowIsTotal(left[0], right[0]);
      assert left[0] == right[0];
      forall key ensures key in KeySet(left[1..]) <==> key in KeySet(right[1..]) {
        TailKeys(left, key);
        TailKeys(right, key);
      }
      SortedIsUnique(left[1..], right[1..]);
      assert left == [left[0]] + left[1..] && right == [right[0]] + right[1..];
    }
  }

  lemma TailKeys(keys: seq<Bytes>, key: Bytes)
    requires StrictlySorted(keys) && keys != []
    ensures key in KeySet(keys[1..]) <==> key in KeySet(keys) && key != keys[0]
  {
    BelowIsTotal(keys[0], keys[0]);
    if key in KeySet(keys) && key != keys[0] {
      var i :| 0 <= i < |keys| && keys[i] == key;
      assert keys[1..][i - 1] == key;
    }
  }

  method SortKeys(keys: set<Bytes>) returns (sorted: seq<Bytes>)
    ensures sorted == SortedKeys(keys)
  {
    sorted := [];
    var pending := keys;
    while pending != {}
      invariant StrictlySorted(sorted) && KeySet(sorted) == keys - pending && pending <= keys
      decreases |pending|
    {
      var key :| key in pending;
      assert key !in KeySet(sorted);
      InsertKeepsSorted(sorted, key);
      sorted := InsertSorted(sorted, key);
      pending := pending - {key};
    }
    SortedKeysListAll(keys);
    SortedIsUnique(sorted, SortedKeys(keys));
  }
}
