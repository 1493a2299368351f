/** `sort_by` on pairs of texts: a stable sort. */
module StableSort {
  import opened Bytes

  type Key = (Bytes, Bytes)

  datatype Keyed<T> = Keyed(key: Key, item: T)

  predicate KeyBelow(left: Key, right: Key) {
    Below(left.0, right.0) || (left.0 == right.0 && Below(left.1, right.1))
  }

  lemma KeyBelowIsTotal(left: Key, right: Key)
    ensures !(KeyBelow(left, right) && KeyBelow(right, left))
    ensures left == right || KeyBelow(left, right) || KeyBelow(right, left)
  {
    BelowIsTotal(left.0, right.0);
    BelowIsTotal(left.1, right.1);
  }

  lemma KeyBelowIsTransitive(a: Key, b: Key, c: Key)
    requires KeyBelow(a, b) && KeyBelow(b, c)
    ensures KeyBelow(a, c)
  {
    if Below(a.0, b.0) && Below(b.0, c.0) {
      BelowIsTransitive(a.0, b.0, c.0);
    } else if a.0 == b.0 == c.0 {
      BelowIsTransitive(a.1, b.1, c.1);
    }
  }

  /** The new element goes behind every element that it does not come before. */
  function Insert<T>(sorted: seq<Keyed<T>>, x: Keyed<T>): seq<Keyed<T>> {
    if sorted != [] && KeyBelow(x.key, sorted[|sorted| - 1].key)
    then Insert(sorted[..|sorted| - 1], x) + [sorted[|sorted| - 1]]
    else sorted + [x]
  }

  function Sorted<T>(xs: seq<Keyed<T>>): seq<Keyed<T>> {
    if xs == [] then [] else Insert(Sorted(xs[..|xs| - 1]), xs[|xs| - 1])
  }

  ghost predicate Ordered<T>(xs: seq<Keyed<T>>) {
    forall i, j | 0 <= i < j < |xs| :: !KeyBelow(xs[j].key, xs[i].key)
  }

  lemma NotBelowIsTransitive(a: Key, b: Key, c: Key)
    requires !KeyBelow(b, a) && !KeyBelow(c, b)
    ensures !KeyBelow(c, a)
  {
    KeyBelowIsTotal(a, b);
    KeyBelowIsTotal(b, c);
    if KeyBelow(c, a) && a != b {
      KeyBelowIsTransitive(c, a, b);
    }
  }

  lemma {:induction false} InsertKeepsAll<T>(sorted: seq<Keyed<T>>, x: Keyed<T>)
    ensures multiset(Insert(sorted, x)) == multiset(sorted) + multiset{x}
  {
    if sorted != [] && KeyBelow(x.key, sorted[|sorted| - 1].key) {
      hide KeyBelow;
      InsertKeepsAll(sorted[..|sorted| - 1], x);
      assert sorted == sorted[..|sorted| - 1] + [sorted[|sorted| - 1]];
    }
  }

  lemma {:induction false} InsertKeepsOrder<T>(sorted: seq<Keyed<T>>, x: Keyed<T>)
    requires Ordered(sorted)
    ensures Ordered(Insert(sorted, x))
  {
    if sorted != [] {
      hide KeyBelow;
      var front, last := sorted[..|sorted| - 1], sorted[|sorted| - 1];
      KeyBelowIsTotal(x.key, last.key);
      if KeyBelow(x.key, last.key) {
        var before := Insert(front, x);
        InsertKeepsOrder(front, x);
        InsertKeepsAll(front, x);
        forall i | 0 <= i < |before| ensures !KeyBelow(last.key, before[i].key) {
          assert before[i] in multiset(before);
          assert before[i] in front || before[i] == x;
        }
      } else {
        forall i | 0 <= i < |sorted| ensures !KeyBelow(x.key, sorted[i].key) {
          if i < |front| {
            NotBelowIsTransitive(sorted[i].key, last.key, x.key);
          }
        }
      }
    }
  }

  /** The sort orders, and loses and adds nothing. */
  lemma {:induction false} SortedIsOrdered<T>(xs: seq<Keyed<T>>)
    ensures Ordered(Sorted(xs)) && multiset(Sorted(xs)) == multiset(xs)
  {
    if xs != [] {
      SortedIsOrdered(xs[..|xs| - 1]);
      InsertKeepsOrder(Sorted(xs[..|xs| - 1]), xs[|xs| - 1]);
      InsertKeepsAll(Sorted(xs[..|xs| - 1]), xs[|xs| - 1]);
      assert xs == xs[..|xs| - 1] + [xs[|xs| - 1]];
    }
  }

  // ------------------------------------------------------------------------------ stability

  /** The elements with a key, in their order. */
  function WithKey<T>(xs: seq<Keyed<T>>, key: Key): seq<Keyed<T>> {
    if xs == [] then []
    else
      var last := xs[|xs| - 1];
      WithKey(xs[..|xs| - 1], key) + if last.key == key then [last] else []
  }

  lemma OneMoreWithKey<T>(xs: seq<Keyed<T>>, x: Keyed<T>, key: Key)
    ensures WithKey(xs + [x], key) == WithKey(xs, key) + if x.key == key then [x] else []
  {
    assert (xs + [x])[..|xs|] == xs;
  }

  lemma {:induction false} InsertPassesOtherKeys<T>(sorted: seq<Keyed<T>>, x: Keyed<T>, key: Key)
    ensures WithKey(Insert(sorted, x), key) == WithKey(sorted, key) + if x.key == key then [x] else []
  {
    OneMoreWithKey(sorted, x, key);
    if sorted != [] && KeyBelow(x.key, sorted[|sorted| - 1].key) {
      var front, last := sorted[..|sorted| - 1], sorted[|sorted| - 1];
      KeyBelowIsTotal(x.key, last.key);
      hide KeyBelow;
      InsertPassesOtherKeys(front, x, key);
      OneMoreWithKey(Insert(front, x), last, key);
    }
  }

  /** The sort is stable: elements with equal keys keep their order. */
  lemma {:induction false} SortedIsStable<T>(xs: seq<Keyed<T>>, key: Key)
    ensures WithKey(Sorted(xs), key) == WithKey(xs, key)
  {
    if xs != [] {
      SortedIsStable(xs[..|xs| - 1], key);
      InsertPassesOtherKeys(Sorted(xs[..|xs| - 1]), xs[|xs| - 1], key);
    }
  }

  ghost function Without<T>(xs: seq<T>, i: nat): seq<T>
    requires i < |xs|
  {
    xs[..i] + xs[i + 1..]
  }

  lemma WithoutOne<T>(xs: seq<T>, i: nat)
    requires i < |xs|
    ensures multiset(Without(xs, i)) == multiset(xs) - multiset{xs[i]}
  {
    assert xs == xs[..i] + [xs[i]] + xs[i + 1..];
  }

  /** Two places of a permutation hold what two places of the original hold. */
  lemma PermutedPairs<T>(s: seq<T>, xs: seq<T>, i: nat, j: nat) returns (k: nat, l: nat)
    requires i < j < |s| && multiset(s) == multiset(xs)
    ensures k < |xs| && l < |xs| && k != l && xs[k] == s[i] && xs[l] == s[j]
  {
    assert s[i] in multiset(s);
    k :| 0 <= k < |xs| && xs[k] == s[i];
    WithoutOne(s, i);
    WithoutOne(xs, k);
    assert Without(s, i)[j - 1] == s[j];
    assert s[j] in multiset(Without(s, i));
    var m :| 0 <= m < |Without(xs, k)| && Without(xs, k)[m] == s[j];
    l := if m < k then m else m + 1;
  }
}
