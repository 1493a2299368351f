/** The byte stream a JSON value feeds to the fingerprint hash, and why no two meanings share one. */
module Fingerprint {
  import opened Bytes
  import opened Decimal
  import opened Numbers
  import opened Json
  import opened KeyOrder

  // -------------------------------------------------------------------- the stream

  const LENGTH_LIMIT: nat := 0x1_0000_0000_0000_0000

  /** A number in a fixed count of bytes, most significant first. */
  function BigEndian(n: nat, width: nat): (bytes: Bytes)
    ensures |bytes| == width
  {
    if width == 0 then [] else BigEndian(n / 256, width - 1) + [n % 256]
  }

  /** The eight bytes that carry a length. */
  function LengthBytes(n: nat): (bytes: Bytes)
    ensures |bytes| == 8
  {
    BigEndian(n, 8)
  }

  function Framed(bytes: Bytes): Bytes {
    LengthBytes(|bytes|) + bytes
  }

  function Flag(b: bool): Byte {
    if b then 1 else 0
  }

  function NumberPreimage(text: Bytes): Bytes {
    var normal := NumberNormalForm(text);
    if normal.Some? then NormalFormPreimage(normal.value) else Framed(text)
  }

  function NormalFormPreimage(normal: NormalForm): Bytes {
    [Flag(normal.negative)] + (Framed(normal.digits) + Framed(IntText(normal.scale)))
  }

  /** The byte that announces the kind of a value. */
  function Tag(v: Json): Byte {
    match v
    case Null => 9
    case Bool(_) => 10
    case Number(_) => 11
    case String(_) => 12
    case Array(_) => 13
    case Object(_) => 14
  }

  /** What `hash_json_value` feeds to the hasher. */
  ghost function Preimage(v: Json): Bytes
    decreases v, 2
  {
    [Tag(v)] + Body(v)
  }

  ghost function Body(v: Json): Bytes
    decreases v, 1
  {
    match v
    case Null => []
    case Bool(flag) => [Flag(flag)]
    case Number(text) => NumberPreimage(text)
    case String(content) => Framed(content)
    case Array(items) => LengthBytes(|items|) + ItemsPreimage(items)
    case Object(members) =>
      SortedKeysListAll(members.Keys);
      LengthBytes(|members|) + MembersPreimage(v, SortedKeys(members.Keys))
  }

  ghost function ItemsPreimage(items: seq<Json>): Bytes
    decreases items, 0
  {
    if items == [] then [] else Preimage(items[0]) + ItemsPreimage(items[1..])
  }

  ghost function MembersPreimage(owner: Json, keys: seq<Bytes>): Bytes
    requires owner.Object? && forall key | key in keys :: key in owner.members
    decreases owner, 0, keys
  {
    if keys == [] then []
    else Framed(keys[0]) + (Preimage(owner.members[keys[0]]) + MembersPreimage(owner, keys[1..]))
  }

  // -------------------------------------------------------------- unique decoding

  /** Every length fits the eight bytes that carry it. */
  ghost predicate Hashable(v: Json) {
    match v
    case Number(text) => HashableNumber(text)
    case String(content) => |content| < LENGTH_LIMIT
    case Array(items) => |items| < LENGTH_LIMIT && forall i | 0 <= i < |items| :: Hashable(items[i])
    case Object(members) =>
      && |members| < LENGTH_LIMIT
      && forall key | key in members :: |key| < LENGTH_LIMIT && Hashable(members[key])
    case _ => true
  }

  ghost predicate HashableNumber(text: Bytes) {
    var normal := NumberNormalForm(text);
    if normal.Some? then HashableForm(normal.value) else |text| < LENGTH_LIMIT
  }

  ghost predicate HashableForm(normal: NormalForm) {
    |normal.digits| < LENGTH_LIMIT && |IntText(normal.scale)| < LENGTH_LIMIT
  }

  /** A value whose stream can be read back: lengths fit and number texts are literals. */
  ghost predicate Decodable(v: Json) {
    Hashable(v) && WellFormed(v)
  }

  function Pow256(width: nat): (p: nat)
    ensures p >= 1
  {
    if width == 0 then 1 else 256 * Pow256(width - 1)
  }

  lemma {:induction false} BigEndianIsInjective(m: nat, n: nat, width: nat)
    requires m < Pow256(width) && n < Pow256(width) && BigEndian(m, width) == BigEndian(n, width)
    ensures m == n
    decreases width
  {
    if width > 0 {
      var a, b := BigEndian(m, width), BigEndian(n, width);
      assert a[..width - 1] == BigEndian(m / 256, width - 1) && b[..width - 1] == BigEndian(n / 256, width - 1);
      assert a[width - 1] == m % 256 && b[width - 1] == n % 256;
      BigEndianIsInjective(m / 256, n / 256, width - 1);
    }
  }

  /** Two streams that start with equally long fields agree field by field. */
  lemma Peel(a: Bytes, s: Bytes, b: Bytes, t: Bytes)
    requires a + s == b + t && |a| == |b|
    ensures a == b && s == t
  {
    assert a == (a + s)[..|a|] && b == (b + t)[..|b|];
    assert s == (a + s)[|a|..] && t == (b + t)[|b|..];
  }

  lemma Regroup(a: Bytes, b: Bytes, s: Bytes)
    ensures (a + b) + s == a + (b + s)
  {
  }

  lemma LengthIsInjective(m: nat, n: nat, s: Bytes, t: Bytes)
    requires m < LENGTH_LIMIT && n < LENGTH_LIMIT
    requires LengthBytes(m) + s == LengthBytes(n) + t
    ensures m == n && s == t
  {
    Peel(LengthBytes(m), s, LengthBytes(n), t);
    assert Pow256(8) == LENGTH_LIMIT;
    BigEndianIsInjective(m, n, 8);
  }

  lemma FramedIsInjective(x: Bytes, y: Bytes, s: Bytes, t: Bytes)
    requires |x| < LENGTH_LIMIT && |y| < LENGTH_LIMIT && Framed(x) + s == Framed(y) + t
    ensures x == y && s == t
  {
    Regroup(LengthBytes(|x|), x, s);
    Regroup(LengthBytes(|y|), y, t);
    LengthIsInjective(|x|, |y|, x + s, y + t);
    Peel(x, s, y, t);
  }

  lemma NumberPreimageDecodes(x: Bytes, y: Bytes, s: Bytes, t: Bytes)
    requires HashableNumber(x) && HashableNumber(y) && IsLiteral(x) && IsLiteral(y)
    requires NumberPreimage(x) + s == NumberPreimage(y) + t
    ensures NumbersEqual(x, y) && s == t
  {
    var m := NormalFormOfLiteral(LiteralOf(x));
    var n := NormalFormOfLiteral(LiteralOf(y));
    NormalFormDecodes(m, n, s, t);
  }

  lemma NormalFormDecodes(m: NormalForm, n: NormalForm, s: Bytes, t: Bytes)
    requires HashableForm(m) && HashableForm(n)
    requires NormalFormPreimage(m) + s == NormalFormPreimage(n) + t
    ensures m == n && s == t
  {
    var mScale, nScale := Framed(IntText(m.scale)), Framed(IntText(n.scale));
    Regroup([Flag(m.negative)], Framed(m.digits) + mScale, s);
    Regroup([Flag(n.negative)], Framed(n.digits) + nScale, t);
    Regroup(Framed(m.digits), mScale, s);
    Regroup(Framed(n.digits), nScale, t);
    Peel([Flag(m.negative)], Framed(m.digits) + (mScale + s), [Flag(n.negative)], Framed(n.digits) + (nScale + t));
    assert Flag(m.negative) == [Flag(m.negative)][0] == [Flag(n.negative)][0] == Flag(n.negative);
    FramedIsInjective(m.digits, n.digits, mScale + s, nScale + t);
    FramedIsInjective(IntText(m.scale), IntText(n.scale), s, t);
    IntTextIsInjective(m.scale, n.scale);
  }

  /** The stream of one value never starts, or continues, the stream of a different one. */
  lemma {:induction false} PreimageDecodes(left: Json, right: Json, s: Bytes, t: Bytes)
    requires Decodable(left) && Decodable(right) && Preimage(left) + s == Preimage(right) + t
    ensures JsonEqual(left, right) && s == t
    decreases left, 2
  {
    Regroup([Tag(left)], Body(left), s);
    Regroup([Tag(right)], Body(right), t);
    Peel([Tag(left)], Body(left) + s, [Tag(right)], Body(right) + t);
    assert Tag(left) == [Tag(left)][0] == [Tag(right)][0] == Tag(right);
    BodyDecodes(left, right, s, t);
  }

  lemma {:induction false} BodyDecodes(left: Json, right: Json, s: Bytes, t: Bytes)
    requires Decodable(left) && Decodable(right) && Tag(left) == Tag(right) && Body(left) + s == Body(right) + t
    ensures JsonEqual(left, right) && s == t
    decreases left, 1
  {
    match (left, right)
    case (Null, Null) =>
      Peel([], s, [], t);
    case (Bool(m), Bool(n)) =>
      Peel([Flag(m)], s, [Flag(n)], t);
      assert Flag(m) == [Flag(m)][0] == [Flag(n)][0] == Flag(n);
    case (Number(m), Number(n)) => NumberPreimageDecodes(m, n, s, t);
    case (String(m), String(n)) => FramedIsInjective(m, n, s, t);
    case (Array(xs), Array(ys)) =>
      ItemListDecodes(xs, ys, s, t);
    case (Object(xs), Object(ys)) => MemberListDecodes(left, right, s, t);
  }

  lemma {:induction false} ItemListDecodes(xs: seq<Json>, ys: seq<Json>, s: Bytes, t: Bytes)
    requires |xs| < LENGTH_LIMIT && |ys| < LENGTH_LIMIT
    requires forall i | 0 <= i < |xs| :: Decodable(xs[i])
    requires forall i | 0 <= i < |ys| :: Decodable(ys[i])
    requires (LengthBytes(|xs|) + ItemsPreimage(xs)) + s == (LengthBytes(|ys|) + ItemsPreimage(ys)) + t
    ensures JsonEqual(Array(xs), Array(ys)) && s == t
    decreases xs, 1
  {
    Regroup(LengthBytes(|xs|), ItemsPreimage(xs), s);
    Regroup(LengthBytes(|ys|), ItemsPreimage(ys), t);
    LengthIsInjective(|xs|, |ys|, ItemsPreimage(xs) + s, ItemsPreimage(ys) + t);
    ItemsPreimageDecodes(xs, ys, s, t);
  }

  lemma {:induction false} MemberListDecodes(left: Json, right: Json, s: Bytes, t: Bytes)
    requires Decodable(left) && Decodable(right) && left.Object? && right.Object? && Body(left) + s == Body(right) + t
    ensures JsonEqual(left, right) && s == t
    decreases left, 0, |left.members| + 1
  {
    var xs, ys := left.members, right.members;
    var ks, ls := SortedKeys(xs.Keys), SortedKeys(ys.Keys);
    SortedKeysListAll(xs.Keys);
    SortedKeysListAll(ys.Keys);
    Regroup(LengthBytes(|xs|), MembersPreimage(left, ks), s);
    Regroup(LengthBytes(|ys|), MembersPreimage(right, ls), t);
    LengthIsInjective(|xs|, |ys|, MembersPreimage(left, ks) + s, MembersPreimage(right, ls) + t);
    MembersPreimageDecodes(left, right, ks, ls, s, t);
    assert forall key | key in xs :: key in KeySet(ks);
    EqualObjects(xs, ys);
  }

  lemma {:induction false} ItemsPreimageDecodes(xs: seq<Json>, ys: seq<Json>, s: Bytes, t: Bytes)
    requires |xs| == |ys| && ItemsPreimage(xs) + s == ItemsPreimage(ys) + t
    requires forall i | 0 <= i < |xs| :: Decodable(xs[i]) && Decodable(ys[i])
    ensures s == t && forall i | 0 <= i < |xs| :: JsonEqual(xs[i], ys[i])
    decreases xs, 0
  {
    if xs == [] {
      Peel([], s, [], t);
    } else {
      Regroup(Preimage(xs[0]), ItemsPreimage(xs[1..]), s);
      Regroup(Preimage(ys[0]), ItemsPreimage(ys[1..]), t);
      PreimageDecodes(xs[0], ys[0], ItemsPreimage(xs[1..]) + s, ItemsPreimage(ys[1..]) + t);
      ItemsPreimageDecodes(xs[1..], ys[1..], s, t);
    }
  }

  lemma FirstMemberPreimage(owner: Json, keys: seq<Bytes>)
    requires owner.Object? && keys != [] && forall key | key in keys :: key in owner.members
    ensures MembersPreimage(owner, keys)
         == Framed(keys[0]) + (Preimage(owner.members[keys[0]]) + MembersPreimage(owner, keys[1..]))
  {
  }

  lemma MemberIsDecodable(owner: Json, key: Bytes)
    requires owner.Object? && Decodable(owner) && key in owner.members
    ensures |key| < LENGTH_LIMIT && Decodable(owner.members[key])
  {
  }

  lemma {:induction false} MembersPreimageDecodes(left: Json, right: Json, ks: seq<Bytes>, ls: seq<Bytes>, s: Bytes, t: Bytes)
    requires left.Object? && right.Object? && Decodable(left) && Decodable(right) && |ks| == |ls|
    requires forall key | key in ks :: key in left.members
    requires forall key | key in ls :: key in right.members
    requires MembersPreimage(left, ks) + s == MembersPreimage(right, ls) + t
    ensures s == t && ks == ls
    ensures forall key | key in ks :: key in right.members && JsonEqual(left.members[key], right.members[key])
    decreases left, 0, |ks|
  {
    if ks == [] {
      Peel([], s, [], t);
    } else {
      FirstMemberPreimage(left, ks);
      FirstMemberPreimage(right, ls);
      hide Preimage, MembersPreimage, Framed, Decodable, JsonEqual;
      var k, l := ks[0], ls[0];
      MemberIsDecodable(left, k);
      MemberIsDecodable(right, l);
      var x, y := Preimage(left.members[k]), Preimage(right.members[l]);
      var xs, ys := MembersPreimage(left, ks[1..]), MembersPreimage(right, ls[1..]);
      Regroup(Framed(k), x + xs, s);
      Regroup(Framed(l), y + ys, t);
      Regroup(x, xs, s);
      Regroup(y, ys, t);
      FramedIsInjective(k, l, x + (xs + s), y + (ys + t));
      PreimageDecodes(left.members[k], right.members[l], xs + s, ys + t);
      MembersPreimageDecodes(left, right, ks[1..], ls[1..], s, t);
      assert ks == [k] + ks[1..] && ls == [l] + ls[1..];
    }
  }

  /** Values that mean the same feed the same stream, whatever their spelling and member order. */
  lemma {:induction false} EqualValuesHashAlike(left: Json, right: Json)
    requires JsonEqual(left, right)
    ensures Preimage(left) == Preimage(right)
    decreases left, 1
  {
    match (left, right)
    case (Array(xs), Array(ys)) =>
      if xs != ys {
        EqualItemsHashAlike(xs, ys);
      }
    case (Object(xs), Object(ys)) =>
      EqualObjects(xs, ys);
      assert |xs| == |xs.Keys| == |ys.Keys| == |ys|;
      SortedKeysListAll(xs.Keys);
      EqualMembersHashAlike(left, right, SortedKeys(xs.Keys));
    case _ =>
  }

  lemma {:induction false} EqualItemsHashAlike(xs: seq<Json>, ys: seq<Json>)
    requires |xs| == |ys| && forall i | 0 <= i < |xs| :: JsonEqual(xs[i], ys[i])
    ensures ItemsPreimage(xs) == ItemsPreimage(ys)
    decreases xs, 0
  {
    if xs != [] {
      EqualValuesHashAlike(xs[0], ys[0]);
      EqualItemsHashAlike(xs[1..], ys[1..]);
    }
  }

  lemma {:induction false} EqualMembersHashAlike(left: Json, right: Json, keys: seq<Bytes>)
    requires left.Object? && right.Object?
    requires forall key | key in keys ::
               key in left.members && key in right.members && JsonEqual(left.members[key], right.members[key])
    ensures MembersPreimage(left, keys) == MembersPreimage(right, keys)
    decreases left, 0, keys
  {
    if keys != [] {
      EqualValuesHashAlike(left.members[keys[0]], right.members[keys[0]]);
      EqualMembersHashAlike(left, right, keys[1..]);
    }
  }

  /** The fingerprint stream identifies a value up to semantic equality, and nothing less. */
  lemma PreimageIdentifiesMeaning(left: Json, right: Json)
    requires Decodable(left) && Decodable(right)
    ensures Preimage(left) == Preimage(right) <==> JsonEqual(left, right)
  {
    if Preimage(left) == Preimage(right) {
      PreimageDecodes(left, right, [], []);
    } else if JsonEqual(left, right) {
      EqualValuesHashAlike(left, right);
    }
  }

  // ---------------------------------------------------------------------- the hasher

  /** The incremental hash: all that matters here is the bytes it has consumed. */
  class Hasher {
    var consumed: Bytes

    constructor ()
      ensures consumed == []
    {
      consumed := [];
    }

    method Update(bytes: Bytes)
      modifies this
      ensures consumed == old(consumed) + bytes
    {
      consumed := consumed + bytes;
    }

    method HashFingerprintLength(length: nat)
      requires length < LENGTH_LIMIT
      modifies this
      ensures consumed == old(consumed) + LengthBytes(length)
    {
      Update(LengthBytes(length));
    }

    method HashFingerprintBytes(bytes: Bytes)
      requires |bytes| < LENGTH_LIMIT
      modifies this
      ensures consumed == old(consumed) + Framed(bytes)
    {
      HashFingerprintLength(|bytes|);
      Update(bytes);
      Regroup(old(consumed), LengthBytes(|bytes|), bytes);
    }

    method HashNormalForm(normal: NormalForm)
      requires HashableForm(normal)
      modifies this
      ensures consumed == old(consumed) + NormalFormPreimage(normal)
    {
      Update([Flag(normal.negative)]);
      HashFingerprintBytes(normal.digits);
      HashFingerprintBytes(IntText(normal.scale));
      ghost var digits, scale := Framed(normal.digits), Framed(IntText(normal.scale));
      Regroup(old(consumed) + [Flag(normal.negative)], digits, scale);
      Regroup(old(consumed), [Flag(normal.negative)], digits + scale);
    }

    /** `hash_json_value`: feeds the value's stream to the hasher, object entries in key order. */
    method HashJsonValue(value: Json)
      requires Hashable(value)
      modifies this
      ensures consumed == old(consumed) + Preimage(value)
      decreases value, 2
    {
      Update([Tag(value)]);
      HashBody(value);
      Regroup(old(consumed), [Tag(value)], Body(value));
    }

    method HashBody(value: Json)
      requires Hashable(value)
      modifies this
      ensures consumed == old(consumed) + Body(value)
      decreases value, 1
    {
      match value
      case Null =>
        assert consumed == consumed + [];
      case Bool(flag) => Update([Flag(flag)]);
      case Number(text) =>
        var normal := NumberNormalForm(text);
        if normal.Some? {
          HashNormalForm(normal.value);
        } else {
          HashFingerprintBytes(text);
        }
      case String(content) => HashFingerprintBytes(content);
      case Array(items) =>
        HashFingerprintLength(|items|);
        HashItems(items);
        Regroup(old(consumed), LengthBytes(|items|), ItemsPreimage(items));
      case Object(members) =>
        var keys := SortKeys(members.Keys);
        SortedKeysListAll(members.Keys);
        HashFingerprintLength(|keys|);
        HashMembers(value, keys);
        Regroup(old(consumed), LengthBytes(|members|), MembersPreimage(value, keys));
    }

    method HashItems(items: seq<Json>)
      requires forall i | 0 <= i < |items| :: Hashable(items[i])
      modifies this
      ensures consumed == old(consumed) + ItemsPreimage(items)
      decreases items, 0
    {
      assert items[0..] == items;
      for i := 0 to |items|
        invariant consumed + ItemsPreimage(items[i..]) == old(consumed) + ItemsPreimage(items)
      {
        assert items[i..][0] == items[i] && items[i..][1..] == items[i + 1..];
        Regroup(consumed, Preimage(items[i]), ItemsPreimage(items[i + 1..]));
        HashJsonValue(items[i]);
      }
      assert consumed == consumed + ItemsPreimage(items[|items|..]);
    }

    method HashMembers(owner: Json, keys: seq<Bytes>)
      requires owner.Object? && Hashable(owner)
      requires forall key | key in keys :: key in owner.members
      modifies this
      ensures consumed == old(consumed) + MembersPreimage(owner, keys)
      decreases owner, 0
    {
      assert keys[0..] == keys;
      for i := 0 to |keys|
        invariant consumed + MembersPreimage(owner, keys[i..]) == old(consumed) + MembersPreimage(owner, keys)
      {
        assert keys[i..][0] == keys[i] && keys[i..][1..] == keys[i + 1..];
        ghost var member, rest := Preimage(owner.members[keys[i]]), MembersPreimage(owner, keys[i + 1..]);
        Regroup(consumed, Framed(keys[i]), member + rest);
        Regroup(consumed + Framed(keys[i]), member, rest);
        HashFingerprintBytes(keys[i]);
        HashJsonValue(owner.members[keys[i]]);
      }
      assert consumed == consumed + MembersPreimage(owner, keys[|keys|..]);
    }
  }
}
