/** JSON values, their semantic equality, and the pointers that address their parts. */
module Json {
  import opened Bytes
  import opened Decimal
  import opened Numbers

  /** A number keeps the text it was written with; an object is a finite map from distinct names. */
  datatype Json =
    | Null
    | Bool(flag: bool)
    | Number(text: Bytes)
    | String(content: Bytes)
    | Array(items: seq<Json>)
    | Object(members: map<Bytes, Json>)

  // ------------------------------------------------------------ semantic equality

  /** `json_values_equal`: numbers by value, objects by member, arrays by position. */
  predicate JsonEqual(left: Json, right: Json) {
    || left == right
    || match (left, right)
       case (Number(x), Number(y)) => NumbersEqual(x, y)
       case (Array(xs), Array(ys)) =>
         |xs| == |ys| && forall i | 0 <= i < |xs| :: JsonEqual(xs[i], ys[i])
       case (Object(xs), Object(ys)) =>
         |xs| == |ys| && forall key | key in xs :: key in ys && JsonEqual(xs[key], ys[key])
       case _ => false
  }

  lemma SameSizeSubmapHasSameKeys<K, V, W>(left: map<K, V>, right: map<K, W>)
    requires |left| == |right| && forall key | key in left :: key in right
    ensures left.Keys == right.Keys
  {
    var missing := right.Keys - left.Keys;
    assert left.Keys + missing == right.Keys;
    assert |right.Keys| == |left.Keys| + |missing|;
    assert missing == {};
  }

  /** Equality as one would specify it: member names agree, and so do the members. */
  lemma EqualObjects(xs: map<Bytes, Json>, ys: map<Bytes, Json>)
    ensures JsonEqual(Object(xs), Object(ys))
       <==> xs.Keys == ys.Keys && forall key | key in xs :: JsonEqual(xs[key], ys[key])
  {
    if JsonEqual(Object(xs), Object(ys)) {
      if xs != ys {
        SameSizeSubmapHasSameKeys(xs, ys);
      }
    } else if xs.Keys == ys.Keys {
      assert |xs| == |xs.Keys| == |ys.Keys| == |ys|;
    }
  }

  lemma EqualToItself(v: Json)
    ensures JsonEqual(v, v)
  {
  }

  lemma {:induction false} EqualIsSymmetric(left: Json, right: Json)
    requires JsonEqual(left, right)
    ensures JsonEqual(right, left)
    decreases left
  {
    match (left, right)
    case (Array(xs), Array(ys)) =>
      forall i | 0 <= i < |xs| ensures JsonEqual(ys[i], xs[i]) {
        EqualIsSymmetric(xs[i], ys[i]);
      }
    case (Object(xs), Object(ys)) =>
      EqualObjects(xs, ys);
      EqualObjects(ys, xs);
      forall key | key in ys ensures JsonEqual(ys[key], xs[key]) {
        EqualIsSymmetric(xs[key], ys[key]);
      }
    case _ =>
  }

  lemma {:induction false} EqualIsTransitive(a: Json, b: Json, c: Json)
    requires JsonEqual(a, b) && JsonEqual(b, c)
    ensures JsonEqual(a, c)
    decreases a
  {
    match (a, b, c)
    case (Array(xs), Array(ys), Array(zs)) =>
      forall i | 0 <= i < |xs| ensures JsonEqual(xs[i], zs[i]) {
        EqualIsTransitive(xs[i], ys[i], zs[i]);
      }
    case (Object(xs), Object(ys), Object(zs)) =>
      EqualObjects(xs, ys);
      EqualObjects(ys, zs);
      EqualObjects(xs, zs);
      forall key | key in xs ensures JsonEqual(xs[key], zs[key]) {
        EqualIsTransitive(xs[key], ys[key], zs[key]);
      }
    case _ =>
  }

  // ------------------------------------------------------------------- meaning

  /** What a JSON value denotes once spelling is forgotten: numbers are rationals. */
  datatype Meaning =
    | NullMeaning
    | BoolMeaning(flag: bool)
    | NumberMeaning(value: real)
    | StringMeaning(content: Bytes)
    | ArrayMeaning(items: seq<Meaning>)
    | ObjectMeaning(members: map<Bytes, Meaning>)

  /** Every number text is a literal of the grammar. */
  ghost predicate WellFormed(v: Json) {
    match v
    case Number(text) => IsLiteral(text)
    case Array(items) => forall i | 0 <= i < |items| :: WellFormed(items[i])
    case Object(members) => forall key | key in members :: WellFormed(members[key])
    case _ => true
  }

  ghost function LiteralOf(text: Bytes): (l: Literal)
    requires IsLiteral(text)
    ensures l.Valid() && l.Text() == text
  {
    var l: Literal :| l.Valid() && l.Text() == text;
    l
  }

  ghost function MeaningOf(v: Json): Meaning
    requires WellFormed(v)
  {
    match v
    case Null => NullMeaning
    case Bool(flag) => BoolMeaning(flag)
    case Number(text) => NumberMeaning(LiteralOf(text).Value())
    case String(content) => StringMeaning(content)
    case Array(items) => ArrayMeaning(seq(|items|, i requires 0 <= i < |items| => MeaningOf(items[i])))
    case Object(members) => ObjectMeaning(map key | key in members :: MeaningOf(members[key]))
  }

  /** Semantic equality is equality of meanings. */
  lemma {:induction false} EqualMeansSameMeaning(left: Json, right: Json)
    requires WellFormed(left) && WellFormed(right)
    ensures JsonEqual(left, right) <==> MeaningOf(left) == MeaningOf(right)
    decreases left
  {
    match (left, right)
    case (Number(x), Number(y)) => NumbersEqualIsExact(LiteralOf(x), LiteralOf(y));
    case (Array(xs), Array(ys)) =>
      var ms, ns := MeaningOf(left).items, MeaningOf(right).items;
      if |xs| == |ys| {
        forall i | 0 <= i < |xs| ensures JsonEqual(xs[i], ys[i]) <==> ms[i] == ns[i] {
          EqualMeansSameMeaning(xs[i], ys[i]);
        }
      }
    case (Object(xs), Object(ys)) =>
      EqualObjects(xs, ys);
      var ms, ns := MeaningOf(left).members, MeaningOf(right).members;
      assert ms.Keys == xs.Keys && ns.Keys == ys.Keys;
      if xs.Keys == ys.Keys {
        forall key | key in xs ensures JsonEqual(xs[key], ys[key]) <==> ms[key] == ns[key] {
          EqualMeansSameMeaning(xs[key], ys[key]);
        }
      }
    case _ =>
  }

  // ------------------------------------------------------------------- pointers

  /** A JSON Pointer, as its sequence of decoded reference tokens (section 4 of RFC 6901). */
  type Pointer = seq<Bytes>

  /** The array position a token names: a decimal without leading zeros. */
  function IndexOfToken(token: Bytes): Option<nat> {
    if Canonical(token) then Some(Val(token)) else None
  }

  function Resolve(v: Json, pointer: Pointer): Option<Json> {
    if pointer == [] then Some(v)
    else
      match v
      case Object(members) =>
        if pointer[0] in members then Resolve(members[pointer[0]], pointer[1..]) else None
      case Array(items) =>
        var index := IndexOfToken(pointer[0]);
        if index.Some? && index.value < |items| then Resolve(items[index.value], pointer[1..]) else None
      case _ => None
  }

  /** `set_bound_value`: replaces the value in place, or adds one member to a present object. */
  function SetBound(v: Json, pointer: Pointer, value: Json): Option<Json> {
    if pointer == [] then Some(value)
    else
      match v
      case Object(members) =>
        if pointer[0] in members then
          var inner := SetBound(members[pointer[0]], pointer[1..], value);
          if inner.Some? then Some(Object(members[pointer[0] := inner.value])) else None
        else if |pointer| == 1 then Some(Object(members[pointer[0] := value]))
        else None
      case Array(items) =>
        var index := IndexOfToken(pointer[0]);
        if index.Some? && index.value < |items| then
          var inner := SetBound(items[index.value], pointer[1..], value);
          if inner.Some? then Some(Array(items[index.value := inner.value])) else None
        else None
      case _ => None
  }

  /** `take_bound_value`: removes one member of a present object. */
  function TakeBound(v: Json, pointer: Pointer): Option<Json> {
    if pointer == [] then None
    else
      match v
      case Object(members) =>
        if pointer[0] !in members then None
        else if |pointer| == 1 then Some(Object(members - {pointer[0]}))
        else
          var inner := TakeBound(members[pointer[0]], pointer[1..]);
          if inner.Some? then Some(Object(members[pointer[0] := inner.value])) else None
      case Array(items) =>
        var index := IndexOfToken(pointer[0]);
        if index.Some? && index.value < |items| then
          var inner := TakeBound(items[index.value], pointer[1..]);
          if inner.Some? then Some(Array(items[index.value := inner.value])) else None
        else None
      case _ => None
  }

  /** Neither pointer leads through the other. */
  predicate Apart(p: Pointer, q: Pointer) {
    !(p <= q) && !(q <= p)
  }

  lemma ApartTails(p: Pointer, q: Pointer)
    requires p != [] && q != [] && p[0] == q[0]
    ensures Apart(p, q) <==> Apart(p[1..], q[1..])
    ensures p <= q <==> p[1..] <= q[1..]
  {
    assert p == [p[0]] + p[1..] && q == [q[0]] + q[1..];
  }

  lemma {:induction false} ResolveThrough(v: Json, p: Pointer, q: Pointer)
    ensures Resolve(v, p + q) == if Resolve(v, p).Some? then Resolve(Resolve(v, p).value, q) else None
    decreases |p|
  {
    if p == [] {
      assert p + q == q;
    } else {
      assert (p + q)[0] == p[0] && (p + q)[1..] == p[1..] + q;
      match v
      case Object(members) =>
        if p[0] in members {
          ResolveThrough(members[p[0]], p[1..], q);
        }
      case Array(items) =>
        var index := IndexOfToken(p[0]);
        if index.Some? && index.value < |items| {
          ResolveThrough(items[index.value], p[1..], q);
        }
      case _ =>
    }
  }

  /** A write succeeds exactly where the value is present or an object can take it as a new member. */
  lemma {:induction false} WhereSetBoundSucceeds(v: Json, p: Pointer, value: Json)
    ensures SetBound(v, p, value).Some? <==>
            Resolve(v, p).Some? || (p != [] && Resolve(v, p[..|p| - 1]).Some? && Resolve(v, p[..|p| - 1]).value.Object?)
    decreases |p|
  {
    if p != [] {
      if |p| > 1 {
        assert p[1..][..|p| - 2] == p[..|p| - 1][1..];
      }
      match v
      case Object(members) =>
        if p[0] in members {
          WhereSetBoundSucceeds(members[p[0]], p[1..], value);
        }
      case Array(items) =>
        var index := IndexOfToken(p[0]);
        if index.Some? && index.value < |items| {
          WhereSetBoundSucceeds(items[index.value], p[1..], value);
        }
      case _ =>
    }
  }

  /** After a write, the written pointer holds the value and everything apart from it is untouched. */
  lemma {:induction false} SetBoundReadsBack(v: Json, p: Pointer, value: Json)
    requires SetBound(v, p, value).Some?
    ensures Resolve(SetBound(v, p, value).value, p) == Some(value)
    decreases |p|
  {
    if p != [] {
      match v
      case Object(members) =>
        if p[0] in members {
          SetBoundReadsBack(members[p[0]], p[1..], value);
        }
      case Array(items) =>
        SetBoundReadsBack(items[IndexOfToken(p[0]).value], p[1..], value);
    }
  }

  lemma {:induction false} SetBoundFrame(v: Json, p: Pointer, value: Json, q: Pointer)
    requires SetBound(v, p, value).Some? && Apart(p, q)
    ensures Resolve(SetBound(v, p, value).value, q) == Resolve(v, q)
    decreases |p|
  {
    if p[0] == q[0] {
      ApartTails(p, q);
      match v
      case Object(members) =>
        if p[0] in members {
          SetBoundFrame(members[p[0]], p[1..], value, q[1..]);
        }
      case Array(items) =>
        SetBoundFrame(items[IndexOfToken(p[0]).value], p[1..], value, q[1..]);
    } else if v.Array? && IndexOfToken(q[0]).Some? {
      DistinctTokens(p[0], q[0]);
    }
  }

  lemma DistinctTokens(s: Bytes, t: Bytes)
    requires s != t && IndexOfToken(s).Some? && IndexOfToken(t).Some?
    ensures IndexOfToken(s) != IndexOfToken(t)
  {
    if Val(s) == Val(t) {
      CanonicalDigitsAreUnique(s, t);
    }
  }

  /** A write below a present value is a write into that value. */
  lemma {:induction false} SetBoundThrough(v: Json, p: Pointer, q: Pointer, value: Json)
    requires Resolve(v, p).Some?
    ensures var inner := SetBound(Resolve(v, p).value, q, value);
            SetBound(v, p + q, value) == if inner.Some? then SetBound(v, p, inner.value) else None
    decreases |p|
  {
    if p == [] {
      assert p + q == q;
    } else {
      assert (p + q)[0] == p[0] && (p + q)[1..] == p[1..] + q;
      match v
      case Object(members) =>
        SetBoundThrough(members[p[0]], p[1..], q, value);
      case Array(items) =>
        SetBoundThrough(items[IndexOfToken(p[0]).value], p[1..], q, value);
    }
  }

  lemma {:induction false} TakeBoundThrough(v: Json, p: Pointer, q: Pointer)
    requires Resolve(v, p).Some? && q != []
    ensures var inner := TakeBound(Resolve(v, p).value, q);
            TakeBound(v, p + q) == if inner.Some? then SetBound(v, p, inner.value) else None
    decreases |p|
  {
    if p == [] {
      assert p + q == q;
    } else {
      assert (p + q)[0] == p[0] && (p + q)[1..] == p[1..] + q;
      match v
      case Object(members) =>
        TakeBoundThrough(members[p[0]], p[1..], q);
      case Array(items) =>
        TakeBoundThrough(items[IndexOfToken(p[0]).value], p[1..], q);
    }
  }

  lemma {:induction false} TakeBoundRemoves(v: Json, p: Pointer)
    requires TakeBound(v, p).Some?
    ensures Resolve(v, p).Some? && Resolve(TakeBound(v, p).value, p).None?
    decreases |p|
  {
    match v
    case Object(members) =>
      if |p| > 1 {
        TakeBoundRemoves(members[p[0]], p[1..]);
      }
    case Array(items) =>
      TakeBoundRemoves(items[IndexOfToken(p[0]).value], p[1..]);
  }

  lemma {:induction false} TakeBoundFrame(v: Json, p: Pointer, q: Pointer)
    requires TakeBound(v, p).Some? && Apart(p, q)
    ensures Resolve(TakeBound(v, p).value, q) == Resolve(v, q)
    decreases |p|
  {
    if p[0] == q[0] {
      ApartTails(p, q);
      match v
      case Object(members) =>
        TakeBoundFrame(members[p[0]], p[1..], q[1..]);
      case Array(items) =>
        TakeBoundFrame(items[IndexOfToken(p[0]).value], p[1..], q[1..]);
    } else if v.Array? && IndexOfToken(q[0]).Some? {
      DistinctTokens(p[0], q[0]);
    }
  }

  /** Equal at this place: both absent, or both present and equal. */
  predicate OptionallyEqual(left: Option<Json>, right: Option<Json>) {
    left.Some? == right.Some? && (left.Some? ==> JsonEqual(left.value, right.value))
  }

  /** Equal values have equal parts under every pointer. */
  lemma {:induction false} EqualValuesResolveAlike(left: Json, right: Json, p: Pointer)
    requires JsonEqual(left, right)
    ensures OptionallyEqual(Resolve(left, p), Resolve(right, p))
    decreases |p|
  {
    if p != [] && left != right {
      match (left, right)
      case (Array(xs), Array(ys)) =>
        var index := IndexOfToken(p[0]);
        if index.Some? && index.value < |xs| {
          EqualValuesResolveAlike(xs[index.value], ys[index.value], p[1..]);
        }
      case (Object(xs), Object(ys)) =>
        EqualObjects(xs, ys);
        if p[0] in xs {
          EqualValuesResolveAlike(xs[p[0]], ys[p[0]], p[1..]);
        }
      case _ =>
    }
  }

  /** Writing an equal value over a present one leaves an equal whole. */
  lemma {:induction false} SetBoundKeepsEqual(v: Json, p: Pointer, value: Json)
    requires Resolve(v, p).Some? && JsonEqual(Resolve(v, p).value, value)
    ensures SetBound(v, p, value).Some? && JsonEqual(v, SetBound(v, p, value).value)
    decreases |p|
  {
    if p != [] {
      match v
      case Object(members) =>
        SetBoundKeepsEqual(members[p[0]], p[1..], value);
        EqualObjects(members, SetBound(v, p, value).value.members);
      case Array(items) =>
        SetBoundKeepsEqual(items[IndexOfToken(p[0]).value], p[1..], value);
    }
  }

  // ------------------------------------------------- keeping the current spelling

  /** The candidate respelled: wherever it agrees with the current document, the current text stays. */
  function Preserved(current: Json, candidate: Json): Json {
    if JsonEqual(current, candidate) then current
    else
      match (current, candidate)
      case (Array(xs), Array(ys)) =>
        Array(seq(|ys|, i requires 0 <= i < |ys| => if i < |xs| then Preserved(xs[i], ys[i]) else ys[i]))
      case (Object(xs), Object(ys)) =>
        Object(map key | key in ys :: if key in xs then Preserved(xs[key], ys[key]) else ys[key])
      case _ => candidate
  }

  /** Both values have this position, through arrays and objects of the same kind. */
  predicate SharedPosition(left: Json, right: Json, p: Pointer) {
    p == [] ||
    match (left, right)
    case (Array(xs), Array(ys)) =>
      var index := IndexOfToken(p[0]);
      index.Some? && index.value < |xs| && index.value < |ys|
      && SharedPosition(xs[index.value], ys[index.value], p[1..])
    case (Object(xs), Object(ys)) => p[0] in xs && p[0] in ys && SharedPosition(xs[p[0]], ys[p[0]], p[1..])
    case _ => false
  }

  lemma {:induction false} PreservedIsEqual(current: Json, candidate: Json)
    ensures JsonEqual(Preserved(current, candidate), candidate)
    decreases candidate
  {
    if !JsonEqual(current, candidate) {
      match (current, candidate)
      case (Array(xs), Array(ys)) =>
        forall i | 0 <= i < |xs| && i < |ys| ensures JsonEqual(Preserved(xs[i], ys[i]), ys[i]) {
          PreservedIsEqual(xs[i], ys[i]);
        }
      case (Object(xs), Object(ys)) =>
        var kept := Preserved(current, candidate).members;
        assert kept.Keys == ys.Keys;
        forall key | key in ys ensures JsonEqual(kept[key], ys[key]) {
          if key in xs {
            PreservedIsEqual(xs[key], ys[key]);
          }
        }
        EqualObjects(kept, ys);
      case _ =>
    }
  }

  /** Wherever the documents share a position and agree there, the result is the current text exactly. */
  lemma {:induction false} PreservedKeepsSpelling(current: Json, candidate: Json, p: Pointer)
    requires SharedPosition(current, candidate, p)
    requires Resolve(current, p).Some? && Resolve(candidate, p).Some?
    requires JsonEqual(Resolve(current, p).value, Resolve(candidate, p).value)
    ensures Resolve(Preserved(current, candidate), p) == Resolve(current, p)
    decreases |p|
  {
    if p != [] && !JsonEqual(current, candidate) {
      match (current, candidate)
      case (Array(xs), Array(ys)) =>
        var index := IndexOfToken(p[0]).value;
        PreservedKeepsSpelling(xs[index], ys[index], p[1..]);
      case (Object(xs), Object(ys)) => PreservedKeepsSpelling(xs[p[0]], ys[p[0]], p[1..]);
    }
  }

  lemma {:induction false} PreservedIsIdempotent(current: Json, candidate: Json)
    ensures Preserved(current, Preserved(current, candidate)) == Preserved(current, candidate)
    decreases candidate
  {
    var once := Preserved(current, candidate);
    if JsonEqual(current, candidate) {
    } else if JsonEqual(current, once) {
      PreservedIsEqual(current, candidate);
      EqualIsTransitive(current, once, candidate);
    } else {
      match (current, candidate)
      case (Array(xs), Array(ys)) =>
        forall i | 0 <= i < |xs| && i < |ys| ensures Preserved(xs[i], once.items[i]) == once.items[i] {
          PreservedIsIdempotent(xs[i], ys[i]);
        }
        assert Preserved(current, once).items == once.items;
      case (Object(xs), Object(ys)) =>
        forall key | key in xs && key in ys ensures Preserved(xs[key], once.members[key]) == once.members[key] {
          PreservedIsIdempotent(xs[key], ys[key]);
        }
        assert Preserved(current, once).members == once.members;
      case _ =>
    }
  }

  /** `preserve_semantically_equal_values`, which rewrites the candidate in place. */
  method PreserveSemanticallyEqualValues(current: Json, candidate: Json) returns (updated: Json)
    ensures updated == Preserved(current, candidate)
    decreases candidate
  {
    updated := candidate;
    if JsonEqual(current, candidate) {
      updated := current;
      return;
    }
    match (current, candidate)
    case (Array(xs), Array(ys)) =>
      var items := ys;
      for i := 0 to if |xs| < |ys| then |xs| else |ys|
        invariant |items| == |ys|
        invariant forall k | 0 <= k < |ys| :: items[k] == if k < i then Preserved(xs[k], ys[k]) else ys[k]
      {
        var item := PreserveSemanticallyEqualValues(xs[i], ys[i]);
        items := items[i := item];
      }
      updated := Array(items);
      assert updated.items == Preserved(current, candidate).items;
    case (Object(xs), Object(ys)) =>
      var members, pending := ys, xs.Keys;
      while pending != {}
        invariant pending <= xs.Keys && members.Keys == ys.Keys
        invariant forall key | key in ys ::
                    members[key] == if key in xs && key !in pending then Preserved(xs[key], ys[key]) else ys[key]
        decreases |pending|
      {
        var key :| key in pending;
        if key in members {
          var member := PreserveSemanticallyEqualValues(xs[key], members[key]);
          members := members[key := member];
        }
        pending := pending - {key};
      }
      updated := Object(members);
      assert updated.members == Preserved(current, candidate).members;
    case _ =>
  }
}
