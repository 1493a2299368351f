/** The longest pointer text that leads to a place of a tree, and what is left of it on the stack of a walk. */
module PointerLengths {
  import opened Bytes
  import opened Decimal
  import opened Json
  import opened JsonText
  import opened KeyOrder
  import opened PointerText
  import opened TreeWalk

  /** The length of the longest text that leads from a value to a place in it. */
  ghost function LongestBelow(v: Json): nat
    decreases v, 1
  {
    match v
    case Array(items) => LongestAmongItems(items, 0)
    case Object(members) =>
      SortedKeysListAll(members.Keys);
      LongestAmongMembers(v, SortedKeys(members.Keys))
    case _ => 0
  }

  /** The same from an array, through its items from one index on. */
  ghost function LongestAmongItems(items: seq<Json>, first: nat): nat
    decreases items, 0
  {
    if items == [] then 0
    else Max(1 + |NatText(first)| + LongestBelow(items[0]), LongestAmongItems(items[1..], first + 1))
  }

  /** The same from an object, through some of its members. */
  ghost function LongestAmongMembers(owner: Json, keys: seq<Bytes>): nat
    requires owner.Object? && forall key | key in keys :: key in owner.members
    decreases owner, 0, |keys|
  {
    if keys == [] then 0
    else Max(1 + |EscapeToken(keys[0])| + LongestBelow(owner.members[keys[0]]), LongestAmongMembers(owner, keys[1..]))
  }

  // ------------------------------------------------------------------- why it is the longest

  /** A token has one text without slashes. */
  lemma {:induction false} EscapedTextIsUnique(raw: Bytes, token: Bytes)
    requires UnescapeToken(raw) == Some(token) && forall i | 0 <= i < |raw| :: raw[i] != SLASH
    ensures raw == EscapeToken(token)
    decreases |raw|
  {
    if raw == [] {
    } else {
      var step := if raw[0] == TILDE then 2 else 1;
      var rest := raw[step..];
      var inner := UnescapeToken(rest).value;
      EscapedTextIsUnique(rest, inner);
      assert token == [token[0]] + inner && token[1..] == inner;
      EscapeOfFirst(token);
      EscapeOfByte(token[0]);
      assert raw == raw[..step] + rest;
      assert raw[..step] == EscapeToken([token[0]]);
    }
  }

  lemma {:induction false} MemberIsWithin(owner: Json, keys: seq<Bytes>, key: Bytes)
    requires owner.Object? && key in keys && forall k | k in keys :: k in owner.members
    ensures 1 + |EscapeToken(key)| + LongestBelow(owner.members[key]) <= LongestAmongMembers(owner, keys)
    decreases |keys|
  {
    hide EscapeToken, LongestBelow;
    if keys[0] != key {
      MemberIsWithin(owner, keys[1..], key);
    }
  }

  lemma FirstItemIsWithin(items: seq<Json>, first: nat)
    requires items != []
    ensures 1 + |NatText(first)| + LongestBelow(items[0]) <= LongestAmongItems(items, first)
    ensures LongestAmongItems(items[1..], first + 1) <= LongestAmongItems(items, first)
  {
    hide NatText, LongestBelow;
  }

  lemma {:induction false} ItemIsWithin(items: seq<Json>, first: nat, i: nat)
    requires i < |items|
    ensures 1 + |NatText(first + i)| + LongestBelow(items[i]) <= LongestAmongItems(items, first)
    decreases |items|
  {
    hide NatText, LongestBelow, LongestAmongItems;
    FirstItemIsWithin(items, first);
    if i > 0 {
      ItemIsWithin(items[1..], first + 1, i - 1);
      assert first + 1 + (i - 1) == first + i;
    }
  }

  lemma IndexTextIsPlain(token: Bytes, index: nat)
    requires IndexOfToken(token) == Some(index)
    ensures token == NatText(index) && EscapeToken(token) == token
  {
    CanonicalDigitsAreUnique(token, NatText(index));
    DigitsNeedNoEscape(token);
    EscapedTextIsUnique(token, token);
  }

  lemma StepIsWithin(v: Json, token: Bytes)
    requires Resolve(v, [token]).Some?
    ensures 1 + |EscapeToken(token)| + LongestBelow(Resolve(v, [token]).value) <= LongestBelow(v)
  {
    assert [token][1..] == [];
    match v
    case Object(members) =>
      SortedKeysListAll(members.Keys);
      assert token in KeySet(SortedKeys(members.Keys));
      MemberIsWithin(v, SortedKeys(members.Keys), token);
    case Array(items) =>
      var index := IndexOfToken(token).value;
      IndexTextIsPlain(token, index);
      ItemIsWithin(items, 0, index);
  }

  /** No pointer text that leads to a place is longer. */
  lemma {:induction false} LongestIsLongest(root: Json, pointer: Bytes)
    requires ParsePointer(pointer).Some? && Resolve(root, ParsePointer(pointer).value).Some?
    ensures |pointer| <= LongestBelow(root)
    decreases |pointer|
  {
    if pointer != [] {
      var first, rest := SplitPointer(pointer);
      var token, tokens := UnescapeToken(first).value, ParsePointer(rest).value;
      EscapedTextIsUnique(first, token);
      ResolveThrough(root, [token], tokens);
      StepIsWithin(root, token);
      hide LongestBelow, EscapeToken, UnescapeToken, ParsePointer, Resolve;
      LongestIsLongest(Resolve(root, [token]).value, rest);
    }
  }

  // ----------------------------------------------------------------------- on the stack

  /** The longest pointer text that the places below a frame still have. */
  ghost function LongestOfFrame(frame: Frame): nat
    requires frame.Sound()
  {
    match frame
    case ValueFrame(value, _, pointer) => |pointer| + LongestBelow(value)
    case ObjectFrame(owner, rest, _, pointer) => if rest == [] then 0 else |pointer| + LongestAmongMembers(owner, rest)
    case ArrayFrame(items, next, _, pointer) =>
      if next == |items| then 0 else |pointer| + LongestAmongItems(items[next..], next)
  }

  ghost function LongestPending(frames: seq<Frame>): nat
    requires AllSound(frames)
  {
    if frames == [] then 0
    else Max(LongestPending(frames[..|frames| - 1]), LongestOfFrame(frames[|frames| - 1]))
  }

  ghost function OwnPointer(frame: Frame): nat {
    if frame.ValueFrame? then |frame.pointer| else 0
  }

  lemma LongestWithOneMore(frames: seq<Frame>, frame: Frame)
    requires AllSound(frames) && frame.Sound()
    ensures LongestPending(frames + [frame]) == Max(LongestPending(frames), LongestOfFrame(frame))
  {
    assert (frames + [frame])[..|frames|] == frames;
  }

  lemma OneIsPending(frame: Frame)
    requires frame.Sound()
    ensures LongestPending([frame]) == LongestOfFrame(frame)
  {
    LongestWithOneMore([], frame);
    assert [] + [frame] == [frame];
  }

  lemma TwoArePending(frames: seq<Frame>, first: Frame, second: Frame)
    requires AllSound(frames) && first.Sound() && second.Sound()
    ensures AllSound(frames + [first, second])
    ensures LongestPending(frames + [first, second])
         == Max(LongestPending(frames), Max(LongestOfFrame(first), LongestOfFrame(second)))
  {
    hide LongestOfFrame;
    LongestWithOneMore(frames, first);
    LongestWithOneMore(frames + [first], second);
    assert (frames + [first]) + [second] == frames + [first, second];
  }

  /** Popping a frame accounts for its own pointer and leaves the longest of the rest on the stack. */
  lemma PoppedPointer(front: seq<Frame>, frame: Frame)
    requires AllSound(front) && frame.Sound()
    ensures AllSound(front + frame.Successors())
    ensures LongestPending(front + [frame]) == Max(OwnPointer(frame), LongestPending(front + frame.Successors()))
  {
    LongestWithOneMore(front, frame);
    match frame
    case ValueFrame(value, _, _) => PoppedValue(front, frame);
    case ObjectFrame(_, rest, _, _) =>
      if rest == [] {
        assert front + frame.Successors() == front;
      } else {
        PoppedMember(front, frame);
      }
    case ArrayFrame(items, next, _, _) =>
      if next == |items| {
        assert front + frame.Successors() == front;
      } else {
        PoppedItem(front, frame);
      }
  }

  lemma PoppedValue(front: seq<Frame>, frame: Frame)
    requires AllSound(front) && frame.ValueFrame?
    ensures AllSound(front + frame.Successors())
    ensures Max(LongestPending(front), LongestOfFrame(frame))
         == Max(OwnPointer(frame), LongestPending(front + frame.Successors()))
  {
    match frame.value
    case Array(items) =>
      LongestWithOneMore(front, frame.Successors()[0]);
      assert items[0..] == items;
      hide LongestPending, LongestBelow;
      LongestOfArray(frame.value);
    case Object(members) =>
      SortedKeysListAll(members.Keys);
      LongestWithOneMore(front, frame.Successors()[0]);
      hide LongestPending, LongestBelow;
      LongestOfObject(frame.value);
    case _ =>
      assert front + frame.Successors() == front;
  }

  lemma LongestOfArray(v: Json)
    requires v.Array?
    ensures LongestBelow(v) == LongestAmongItems(v.items, 0)
    ensures v.items == [] ==> LongestBelow(v) == 0
  {
  }

  lemma LongestOfObject(v: Json)
    requires v.Object?
    ensures forall key | key in SortedKeys(v.members.Keys) :: key in v.members
    ensures LongestBelow(v) == LongestAmongMembers(v, SortedKeys(v.members.Keys))
    ensures SortedKeys(v.members.Keys) == [] ==> LongestBelow(v) == 0
  {
    SortedKeysListAll(v.members.Keys);
  }

  lemma PoppedMember(front: seq<Frame>, frame: Frame)
    requires AllSound(front) && frame.ObjectFrame? && frame.Sound() && frame.rest != []
    ensures AllSound(front + frame.Successors())
    ensures Max(LongestPending(front), LongestOfFrame(frame)) == LongestPending(front + frame.Successors())
  {
    TwoArePending(front, frame.Successors()[0], frame.Successors()[1]);
    hide LongestPending, LongestBelow, EscapeToken;
  }

  lemma PoppedItem(front: seq<Frame>, frame: Frame)
    requires AllSound(front) && frame.ArrayFrame? && frame.Sound() && frame.next < |frame.items|
    ensures AllSound(front + frame.Successors())
    ensures Max(LongestPending(front), LongestOfFrame(frame)) == LongestPending(front + frame.Successors())
  {
    TwoArePending(front, frame.Successors()[0], frame.Successors()[1]);
    assert frame.items[frame.next..][1..] == frame.items[frame.next + 1..];
    hide LongestPending, LongestBelow, NatText;
  }
}
