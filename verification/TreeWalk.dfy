/** The explicit-stack walk that checks a parsed value against the limits. */
module TreeWalk {
  import opened Bytes
  import opened Decimal
  import opened Json
  import opened JsonText
  import opened KeyOrder
  import opened Scanner
  import opened TreeMetrics
  import opened PointerText
  import opened InputLimits
  import opened DocumentOrder

  /** What the walk still has to do: visit a value, or go on through a collection it has entered. */
  datatype Frame =
    | ValueFrame(value: Json, depth: nat, pointer: Bytes)
    | ObjectFrame(owner: Json, rest: seq<Bytes>, depth: nat, pointer: Bytes)
    | ArrayFrame(items: seq<Json>, next: nat, depth: nat, pointer: Bytes)
  {
    ghost predicate Sound() {
      match this
      case ValueFrame(_, _, _) => true
      case ObjectFrame(owner, rest, _, _) => owner.Object? && forall key | key in rest :: key in owner.members
      case ArrayFrame(items, next, _, _) => next <= |items|
    }

    /** The value the frame visits or has entered. */
    function Subject(): Json {
      match this
      case ValueFrame(value, _, _) => value
      case ObjectFrame(owner, _, _, _) => owner
      case ArrayFrame(items, _, _, _) => Array(items)
    }

    /** The frames that take the place of this one when it is popped. */
    ghost function Successors(): seq<Frame>
      requires Sound()
    {
      match this
      case ValueFrame(Array(items), depth, pointer) => [ArrayFrame(items, 0, depth, pointer)]
      case ValueFrame(Object(members), depth, pointer) =>
        [ObjectFrame(value, SortedKeys(members.Keys), depth, pointer)]
      case ValueFrame(_, _, _) => []
      case ObjectFrame(owner, rest, depth, pointer) =>
        if rest == [] then []
        else [ObjectFrame(owner, rest[1..], depth, pointer),
              ValueFrame(owner.members[rest[0]], depth + 1, AppendToken(pointer, rest[0]))]
      case ArrayFrame(items, next, depth, pointer) =>
        if next == |items| then []
        else [ArrayFrame(items, next + 1, depth, pointer),
              ValueFrame(items[next], depth + 1, pointer + ([SLASH] + NatText(next)))]
    }
  }

  ghost predicate AllSound(frames: seq<Frame>) {
    forall i | 0 <= i < |frames| :: frames[i].Sound()
  }

  // ------------------------------------------------------------ what is still to come

  function At(q: Quantity, n: nat, depth: nat): nat {
    if q.Depth? then n + depth else n
  }

  /** The measure of everything a frame still has to visit, at its depth. */
  ghost function FrameMeasure(q: Quantity, frame: Frame): nat
    requires frame.Sound()
  {
    match frame
    case ValueFrame(value, depth, _) => At(q, ValueMeasure(q, value), depth)
    case ObjectFrame(owner, rest, depth, _) => if rest == [] then 0 else At(q, MemberMeasure(q, owner, rest), depth)
    case ArrayFrame(items, next, depth, _) => if next == |items| then 0 else At(q, ItemMeasure(q, items[next..]), depth)
  }

  /** The part of it that popping the frame accounts for. */
  ghost function OwnMeasure(q: Quantity, frame: Frame): nat {
    match frame
    case ValueFrame(Array(items), depth, _) => At(q, OfArray(q, |items|), depth)
    case ValueFrame(Object(members), depth, _) => At(q, OfObject(q, |members|), depth)
    case ValueFrame(value, depth, _) => At(q, ValueMeasure(q, value), depth)
    case ObjectFrame(_, rest, _, _) => if rest == [] then 0 else OfName(q, |rest[0]|)
    case ArrayFrame(_, _, _, _) => 0
  }

  ghost function PendingMeasure(q: Quantity, frames: seq<Frame>): nat
    requires AllSound(frames)
  {
    if frames == [] then 0
    else Combine(q, PendingMeasure(q, frames[..|frames| - 1]), FrameMeasure(q, frames[|frames| - 1]))
  }

  lemma PushedFrame(q: Quantity, frames: seq<Frame>, frame: Frame)
    requires AllSound(frames) && frame.Sound()
    ensures PendingMeasure(q, frames + [frame]) == Combine(q, PendingMeasure(q, frames), FrameMeasure(q, frame))
  {
    assert (frames + [frame])[..|frames|] == frames;
  }

  lemma NoFrames(q: Quantity, n: nat)
    ensures PendingMeasure(q, []) == 0 && Combine(q, n, 0) == n
  {
  }

  lemma CombineIsAssociative(q: Quantity, a: nat, b: nat, c: nat)
    ensures Combine(q, Combine(q, a, b), c) == Combine(q, a, Combine(q, b, c))
  {
  }

  lemma {:induction false} PushedFrames(q: Quantity, frames: seq<Frame>, pushed: seq<Frame>)
    requires AllSound(frames) && AllSound(pushed)
    ensures PendingMeasure(q, frames + pushed) == Combine(q, PendingMeasure(q, frames), PendingMeasure(q, pushed))
    decreases |pushed|
  {
    hide FrameMeasure, PendingMeasure, Frame.Sound, Combine;
    if pushed == [] {
      assert frames + pushed == frames;
      NoFrames(q, PendingMeasure(q, frames));
    } else {
      var front, last := pushed[..|pushed| - 1], pushed[|pushed| - 1];
      PushedFrames(q, frames, front);
      PushedFrame(q, frames + front, last);
      PushedFrame(q, front, last);
      assert frames + pushed == (frames + front) + [last] && pushed == front + [last];
      CombineIsAssociative(q, PendingMeasure(q, frames), PendingMeasure(q, front), FrameMeasure(q, last));
    }
  }

  lemma TwoFrames(q: Quantity, first: Frame, second: Frame)
    requires first.Sound() && second.Sound()
    ensures AllSound([first, second])
    ensures PendingMeasure(q, [first, second]) == Combine(q, FrameMeasure(q, first), FrameMeasure(q, second))
  {
    hide FrameMeasure;
    OneFrame(q, first);
    PushedFrame(q, [first], second);
    assert [first] + [second] == [first, second];
  }

  lemma OneFrame(q: Quantity, frame: Frame)
    requires frame.Sound()
    ensures PendingMeasure(q, [frame]) == FrameMeasure(q, frame)
  {
    hide FrameMeasure;
    PushedFrame(q, [], frame);
    assert [] + [frame] == [frame];
  }

  // ---------------------------------------------------------------- one step of the walk

  /** Popping a frame accounts for its own part and leaves exactly the rest in its place. */
  lemma SuccessorsKeepTheRest(q: Quantity, frame: Frame)
    requires frame.Sound()
    ensures AllSound(frame.Successors())
    ensures FrameMeasure(q, frame) == Combine(q, OwnMeasure(q, frame), PendingMeasure(q, frame.Successors()))
  {
    match frame
    case ValueFrame(Array(items), _, _) => EnterArray(q, frame);
    case ValueFrame(Object(members), _, _) => EnterObject(q, frame);
    case ValueFrame(_, _, _) =>
    case ObjectFrame(_, rest, _, _) => if rest != [] { NextMember(q, frame); }
    case ArrayFrame(items, next, _, _) => if next != |items| { NextItem(q, frame); }
  }

  lemma EnterArray(q: Quantity, frame: Frame)
    requires frame.ValueFrame? && frame.value.Array?
    ensures AllSound(frame.Successors())
    ensures FrameMeasure(q, frame) == Combine(q, OwnMeasure(q, frame), PendingMeasure(q, frame.Successors()))
  {
    hide ValueMeasure, ItemMeasure, PendingMeasure;
    var items := frame.value.items;
    OneFrame(q, ArrayFrame(items, 0, frame.depth, frame.pointer));
    ArrayValue(q, items);
    assert items[0..] == items;
    NoItems(q);
  }

  lemma NoItems(q: Quantity)
    ensures ItemMeasure(q, []) == 0
  {
  }

  lemma EnterObject(q: Quantity, frame: Frame)
    requires frame.ValueFrame? && frame.value.Object?
    ensures AllSound(frame.Successors())
    ensures FrameMeasure(q, frame) == Combine(q, OwnMeasure(q, frame), PendingMeasure(q, frame.Successors()))
  {
    hide ValueMeasure, PendingMeasure;
    var members := frame.value.members;
    SortedKeysListAll(members.Keys);
    OneFrame(q, ObjectFrame(frame.value, SortedKeys(members.Keys), frame.depth, frame.pointer));
    ObjectValue(q, members);
  }

  lemma NextItem(q: Quantity, frame: Frame)
    requires frame.ArrayFrame? && frame.Sound() && frame.next < |frame.items|
    ensures AllSound(frame.Successors())
    ensures FrameMeasure(q, frame) == Combine(q, OwnMeasure(q, frame), PendingMeasure(q, frame.Successors()))
  {
    hide ValueMeasure, ItemMeasure, PendingMeasure;
    var ArrayFrame(items, next, depth, pointer) := frame;
    TwoFrames(q, frame.Successors()[0], frame.Successors()[1]);
    assert items[next..][0] == items[next] && items[next..][1..] == items[next + 1..];
    FirstItem(q, items[next..]);
    NoItems(q);
  }

  lemma NextMember(q: Quantity, frame: Frame)
    requires frame.ObjectFrame? && frame.Sound() && frame.rest != []
    ensures AllSound(frame.Successors())
    ensures FrameMeasure(q, frame) == Combine(q, OwnMeasure(q, frame), PendingMeasure(q, frame.Successors()))
  {
    hide ValueMeasure, PendingMeasure;
    TwoFrames(q, frame.Successors()[0], frame.Successors()[1]);
    FirstMember(q, frame.owner, frame.rest);
  }

  // ------------------------------------------------------------------ where frames sit

  /** The pointer text leads from the root to the value. */
  ghost predicate Addresses(root: Json, pointer: Bytes, value: Json) {
    ParsePointer(pointer).Some? && Resolve(root, ParsePointer(pointer).value) == Some(value)
  }

  /** The pointer text leads from the root to the value, through so many tokens. */
  ghost predicate SitsAt(root: Json, pointer: Bytes, value: Json, depth: nat) {
    Addresses(root, pointer, value) && |ParsePointer(pointer).value| == depth
  }

  ghost predicate Placed(root: Json, frame: Frame) {
    SitsAt(root, frame.pointer, frame.Subject(), frame.depth)
  }

  ghost predicate AllPlaced(root: Json, frames: seq<Frame>) {
    forall i | 0 <= i < |frames| :: Placed(root, frames[i])
  }

  lemma MemberIsPlaced(root: Json, pointer: Bytes, owner: Json, key: Bytes, depth: nat)
    requires owner.Object? && key in owner.members && SitsAt(root, pointer, owner, depth)
    ensures SitsAt(root, AppendToken(pointer, key), owner.members[key], depth + 1)
    ensures SizeAt(ScalarBytes, root, AppendToken(pointer, key), |key|)
  {
    var path := ParsePointer(pointer).value;
    AppendTokenParses(pointer, key);
    ResolveThrough(root, path, [key]);
    assert (path + [key])[..|path|] == path;
    assert HasSize(ScalarBytes, root, path + [key], owner.members[key], |key|);
  }

  lemma ItemIsPlaced(root: Json, pointer: Bytes, items: seq<Json>, index: nat, depth: nat)
    requires index < |items| && SitsAt(root, pointer, Array(items), depth)
    ensures SitsAt(root, pointer + ([SLASH] + NatText(index)), items[index], depth + 1)
  {
    AppendIndexParses(pointer, index);
    ResolveThrough(root, ParsePointer(pointer).value, [NatText(index)]);
  }

  lemma SuccessorsArePlaced(root: Json, frame: Frame)
    requires frame.Sound() && Placed(root, frame)
    ensures AllPlaced(root, frame.Successors())
    ensures frame.ObjectFrame? && frame.rest != [] ==>
              SizeAt(ScalarBytes, root, AppendToken(frame.pointer, frame.rest[0]), |frame.rest[0]|)
  {
    hide SitsAt, SizeAt;
    match frame
    case ObjectFrame(owner, rest, depth, pointer) =>
      if rest != [] {
        MemberIsPlaced(root, pointer, owner, rest[0], depth);
      }
    case ArrayFrame(items, next, depth, pointer) =>
      if next != |items| {
        ItemIsPlaced(root, pointer, items, next, depth);
      }
    case _ =>
  }

  // ------------------------------------------------------------- what has a size, and where

  /** A place is as deep as its path is long; a collection has a length; a scalar has a size, and so has the name of a
  member. */
  ghost predicate HasSize(q: Quantity, root: Json, path: Pointer, value: Json, size: nat)
    requires IsPeak(q)
  {
    match q
    case Depth => size == |path|
    case CollectionLength => (value.Array? && size == |value.items|) || (value.Object? && size == |value.members|)
    case ScalarBytes =>
      || (!value.Array? && !value.Object? && size == ScalarSize(value))
      || (path != [] && size == |path[|path| - 1]|
          && Resolve(root, path[..|path| - 1]).Some? && Resolve(root, path[..|path| - 1]).value.Object?)
  }

  /** Somewhere in the tree, where the text leads, the quantity has this size. */
  ghost predicate SizeAt(q: Quantity, root: Json, pointer: Bytes, size: nat)
    requires IsPeak(q)
  {
    exists value :: Addresses(root, pointer, value) && HasSize(q, root, ParsePointer(pointer).value, value, size)
  }

  /** What popping a value accounts for is found at its place. */
  lemma OwnSizeIsHere(q: Quantity, root: Json, frame: Frame)
    requires IsPeak(q) && frame.ValueFrame? && Placed(root, frame) && (q.Depth? || OwnMeasure(q, frame) > 0)
    ensures SizeAt(q, root, frame.pointer, OwnMeasure(q, frame))
  {
    assert HasSize(q, root, ParsePointer(frame.pointer).value, frame.value, OwnMeasure(q, frame));
  }

  // ---------------------------------------------------------------------- the walk

  /** Steps left inside the collections already entered. */
  ghost function StepsLeft(frames: seq<Frame>): nat {
    if frames == [] then 0 else StepsLeft(frames[..|frames| - 1]) + FrameSteps(frames[|frames| - 1])
  }

  ghost function FrameSteps(frame: Frame): nat {
    match frame
    case ValueFrame(_, _, _) => 0
    case ObjectFrame(_, rest, _, _) => |rest| + 1
    case ArrayFrame(items, next, _, _) => if next <= |items| then |items| - next + 1 else 0
  }

  lemma StepsShrink(frames: seq<Frame>, frame: Frame)
    requires frame.Sound() && !frame.ValueFrame?
    ensures StepsLeft(frames + frame.Successors()) < StepsLeft(frames + [frame])
  {
    assert (frames + [frame])[..|frames|] == frames;
    var pushed := frame.Successors();
    if pushed == [] {
      assert frames + pushed == frames;
    } else {
      assert (frames + pushed)[..|frames| + 1] == frames + [pushed[0]];
      assert (frames + [pushed[0]])[..|frames|] == frames;
    }
  }

  predicate IsPeak(q: Quantity) {
    q.Depth? || q.CollectionLength? || q.ScalarBytes?
  }

  /** The walk is on course: what it has counted and what is pending make up the whole tree. */
  ghost predicate OnCourse(root: Json, pending: seq<Frame>, limits: Limits, nodes: nat, members: nat)
    requires AllSound(pending)
  {
    && nodes <= limits.nodes && members <= limits.members
    && ValueMeasure(Nodes, root) == nodes + PendingMeasure(Nodes, pending)
    && ValueMeasure(Members, root) == members + PendingMeasure(Members, pending)
    && forall q: Quantity | IsPeak(q) ::
         ValueMeasure(q, root) <= limits.OfQuantity(q) <==> PendingMeasure(q, pending) <= limits.OfQuantity(q)
  }

  /** What is counted and the popped frame's own part are within the limits. */
  ghost predicate OwnFits(frame: Frame, limits: Limits, nodes: nat, members: nat) {
    && nodes + OwnMeasure(Nodes, frame) <= limits.nodes && members + OwnMeasure(Members, frame) <= limits.members
    && forall q: Quantity | IsPeak(q) :: OwnMeasure(q, frame) <= limits.OfQuantity(q)
  }

  lemma PoppedMeasure(q: Quantity, front: seq<Frame>, frame: Frame)
    requires AllSound(front) && frame.Sound()
    ensures AllSound(frame.Successors())
    ensures PendingMeasure(q, front + [frame])
         == Combine(q, OwnMeasure(q, frame), PendingMeasure(q, front + frame.Successors()))
  {
    hide FrameMeasure, OwnMeasure, PendingMeasure;
    SuccessorsKeepTheRest(q, frame);
    PushedFrame(q, front, frame);
    PushedFrames(q, front, frame.Successors());
  }

  lemma StaysOnCourse(root: Json, front: seq<Frame>, frame: Frame, limits: Limits, nodes: nat, members: nat)
    requires AllSound(front) && frame.Sound()
    requires OnCourse(root, front + [frame], limits, nodes, members)
    ensures AllSound(frame.Successors())
    ensures Fits(root, limits) ==> OwnFits(frame, limits, nodes, members)
    ensures OwnFits(frame, limits, nodes, members) ==>
              OnCourse(root, front + frame.Successors(), limits, nodes + OwnMeasure(Nodes, frame),
                       members + OwnMeasure(Members, frame))
    ensures nodes + OwnMeasure(Nodes, frame) <= ValueMeasure(Nodes, root)
    ensures members + OwnMeasure(Members, frame) <= ValueMeasure(Members, root)
    ensures PendingMeasure(Nodes, front + frame.Successors())
         == PendingMeasure(Nodes, front + [frame]) - OwnMeasure(Nodes, frame)
  {
    hide FrameMeasure, OwnMeasure, PendingMeasure, ValueMeasure;
    PoppedMeasure(Nodes, front, frame);
    PoppedMeasure(Members, front, frame);
    forall q: Quantity | IsPeak(q)
      ensures PendingMeasure(q, front + [frame])
           == Max(OwnMeasure(q, frame), PendingMeasure(q, front + frame.Successors()))
    {
      PoppedMeasure(q, front, frame);
    }
    hide Frame.Successors;
  }

  /** A refusal names a place of the tree and what was found there: the size that is too large, or, for the counts, the
  first value beyond the limit and no more members than there are. */
  ghost predicate RefusedHere(root: Json, error: InputLimitError, limits: Limits) {
    && Exceeds(error, limits) && error.dimension.Measured? && (exists value :: Addresses(root, error.pointer, value))
    && match error.dimension.quantity
       case Tokens => false
       case Nodes => error.observed == limits.nodes + 1
       case Members => error.observed <= ValueMeasure(Members, root)
       case q => SizeAt(q, root, error.pointer, error.observed)
  }

  /** What the walk compares with a limit at one value: its own part, added to the count if there is one. */
  ghost function OwnCount(q: Quantity, frame: Frame, nodes: nat, members: nat): nat {
    match q
    case Nodes => nodes + OwnMeasure(Nodes, frame)
    case Members => members + OwnMeasure(Members, frame)
    case _ => OwnMeasure(q, frame)
  }

  // ------------------------------------------------------------------- the order of the walk

  ghost function FrameVisits(frame: Frame): seq<Visit>
    requires frame.Sound()
  {
    match frame
    case ValueFrame(value, depth, pointer) => VisitsOf(value, depth, pointer)
    case ObjectFrame(owner, rest, depth, pointer) => MemberVisits(owner, rest, depth, pointer)
    case ArrayFrame(items, next, depth, pointer) => ItemVisits(items, next, depth, pointer)
  }

  /** The place that popping the frame visits, if it visits one. */
  ghost function OwnVisits(frame: Frame): seq<Visit> {
    match frame
    case ValueFrame(value, depth, pointer) => [ValueVisit(value, depth, pointer)]
    case ObjectFrame(_, rest, _, pointer) => if rest == [] then [] else [NameVisit(rest[0], AppendToken(pointer, rest[0]))]
    case ArrayFrame(_, _, _, _) => []
  }

  ghost function PendingVisits(frames: seq<Frame>): seq<Visit>
    requires AllSound(frames)
  {
    if frames == [] then [] else FrameVisits(frames[|frames| - 1]) + PendingVisits(frames[..|frames| - 1])
  }

  lemma PushedVisits(frames: seq<Frame>, frame: Frame)
    requires AllSound(frames) && frame.Sound()
    ensures PendingVisits(frames + [frame]) == FrameVisits(frame) + PendingVisits(frames)
  {
    assert (frames + [frame])[..|frames|] == frames;
  }

  /** Popping a frame visits the next place of the document. */
  lemma SuccessorsVisitTheRest(frame: Frame)
    requires frame.Sound()
    ensures AllSound(frame.Successors()) && |frame.Successors()| <= 2
    ensures FrameVisits(frame) == OwnVisits(frame) + PendingVisits(frame.Successors())
  {
    SuccessorsKeepTheRest(Nodes, frame);
    var pushed := frame.Successors();
    hide FrameMeasure, PendingMeasure, OwnMeasure, PendingVisits;
    if |pushed| == 1 {
      OnePending(pushed[0]);
    } else if |pushed| == 2 {
      TwoPending(pushed[0], pushed[1]);
    } else {
      NonePending();
    }
  }

  lemma NonePending()
    ensures PendingVisits([]) == []
  {
  }

  lemma OnePending(frame: Frame)
    requires frame.Sound()
    ensures PendingVisits([frame]) == FrameVisits(frame)
  {
    hide FrameVisits;
    NonePending();
    PushedVisits([], frame);
    assert [] + [frame] == [frame];
  }

  lemma TwoPending(first: Frame, second: Frame)
    requires first.Sound() && second.Sound()
    ensures PendingVisits([first, second]) == FrameVisits(second) + FrameVisits(first)
  {
    hide FrameVisits;
    OnePending(first);
    PushedVisits([first], second);
    assert [first] + [second] == [first, second];
  }

  lemma {:induction false} PendingInTurn(front: seq<Frame>, pushed: seq<Frame>)
    requires AllSound(front) && AllSound(pushed)
    ensures PendingVisits(front + pushed) == PendingVisits(pushed) + PendingVisits(front)
    decreases |pushed|
  {
    hide FrameVisits, Frame.Sound;
    if pushed == [] {
      assert front + pushed == front;
    } else {
      var less, last := pushed[..|pushed| - 1], pushed[|pushed| - 1];
      PendingInTurn(front, less);
      assert front + pushed == front + less + [last] && pushed == less + [last];
      PushedVisits(front + less, last);
    }
  }

  lemma PoppedVisits(front: seq<Frame>, frame: Frame)
    requires AllSound(front) && frame.Sound()
    ensures AllSound(frame.Successors())
    ensures PendingVisits(front + [frame]) == OwnVisits(frame) + PendingVisits(front + frame.Successors())
  {
    hide *;
    SuccessorsVisitTheRest(frame);
    PushedVisits(front, frame);
    PendingInTurn(front, frame.Successors());
  }

  lemma OwnSize(q: Quantity, frame: Frame)
    requires q != Tokens
    ensures OwnMeasure(q, frame) == if OwnVisits(frame) == [] then 0 else OwnVisits(frame)[0].Size(q)
  {
  }

  /** What the walk has met, and that all of it passed. */
  ghost predicate Met(root: Json, met: seq<Visit>, pending: seq<Frame>, limits: Limits, nodes: nat, members: nat)
    requires AllSound(pending)
  {
    && VisitsOf(root, 0, []) == met + PendingVisits(pending)
    && nodes == Count(Nodes, met) && members == Count(Members, met)
    && AllPass(met, limits)
  }

  lemma StartsMeeting(root: Json, limits: Limits)
    ensures Met(root, [], [ValueFrame(root, 0, [])], limits, 0, 0)
  {
    var start := [ValueFrame(root, 0, [])];
    PushedVisits([], start[0]);
    assert [] + start == start && PendingVisits([]) == [];
    assert VisitsOf(root, 0, []) + [] == VisitsOf(root, 0, []);
  }

  lemma PassingIsMet(root: Json, met: seq<Visit>, front: seq<Frame>, frame: Frame, limits: Limits, nodes: nat, members: nat)
    requires AllSound(front) && frame.Sound() && Met(root, met, front + [frame], limits, nodes, members)
    requires OwnFits(frame, limits, nodes, members)
    ensures AllSound(frame.Successors())
    ensures Met(root, met + OwnVisits(frame), front + frame.Successors(), limits, nodes + OwnMeasure(Nodes, frame),
                members + OwnMeasure(Members, frame))
  {
    hide *;
    PoppedVisits(front, frame);
    SoundTogether(front, frame, frame.Successors());
    MetMeans(root, met, front + [frame], limits, nodes, members);
    OwnPasses(met, frame, limits, nodes, members);
    MetOneMore(root, met, OwnVisits(frame), front + frame.Successors(), limits);
  }

  lemma SoundTogether(front: seq<Frame>, frame: Frame, pushed: seq<Frame>)
    requires AllSound(front) && frame.Sound() && AllSound(pushed)
    ensures AllSound(front + [frame]) && AllSound(front + pushed)
  {
    hide Frame.Sound;
  }

  lemma MetMeans(root: Json, met: seq<Visit>, pending: seq<Frame>, limits: Limits, nodes: nat, members: nat)
    requires AllSound(pending) && Met(root, met, pending, limits, nodes, members)
    ensures VisitsOf(root, 0, []) == met + PendingVisits(pending) && AllPass(met, limits)
    ensures nodes == Count(Nodes, met) && members == Count(Members, met)
  {
  }

  lemma MetOneMore(root: Json, met: seq<Visit>, own: seq<Visit>, pending: seq<Frame>, limits: Limits)
    requires AllSound(pending) && VisitsOf(root, 0, []) == met + (own + PendingVisits(pending))
    requires AllPass(met + own, limits)
    ensures Met(root, met + own, pending, limits, Count(Nodes, met + own), Count(Members, met + own))
  {
    hide AllSound, VisitsOf, PendingVisits, AllPass, Count;
    assert met + (own + PendingVisits(pending)) == met + own + PendingVisits(pending);
  }

  lemma OwnPasses(met: seq<Visit>, frame: Frame, limits: Limits, nodes: nat, members: nat)
    requires nodes == Count(Nodes, met) && members == Count(Members, met) && AllPass(met, limits)
    requires OwnFits(frame, limits, nodes, members)
    ensures AllPass(met + OwnVisits(frame), limits)
    ensures Count(Nodes, met + OwnVisits(frame)) == nodes + OwnMeasure(Nodes, frame)
    ensures Count(Members, met + OwnVisits(frame)) == members + OwnMeasure(Members, frame)
  {
    var own := OwnVisits(frame);
    OwnSize(Nodes, frame);
    OwnSize(Members, frame);
    OwnIsOne(frame);
    hide AllPass, OwnVisits, OwnMeasure, Count, Visit.Size;
    if own == [] {
      assert met + own == met;
    } else {
      forall q: Quantity | q != Tokens ensures ObservedNext(q, met, own[0]) <= limits.OfQuantity(q) {
        OwnSize(q, frame);
        assert IsPeak(q) || q == Nodes || q == Members;
      }
      NextPasses(met, own[0], limits);
      CountOneMore(Nodes, met, own[0]);
      CountOneMore(Members, met, own[0]);
    }
  }

  lemma OwnIsOne(frame: Frame)
    ensures OwnVisits(frame) != [] ==> OwnVisits(frame) == [OwnVisits(frame)[0]]
  {
  }

  lemma OwnIsObserved(q: Quantity, met: seq<Visit>, frame: Frame, nodes: nat, members: nat)
    requires nodes == Count(Nodes, met) && members == Count(Members, met) && OwnVisits(frame) != [] && q != Tokens
    ensures OwnCount(q, frame, nodes, members) == ObservedNext(q, met, OwnVisits(frame)[0])
  {
    OwnSize(q, frame);
    hide OwnMeasure, Count, OwnVisits;
  }

  lemma TokensRankLast(q: Quantity)
    requires q != Tokens
    ensures forall lower | Rank(lower) < Rank(q) :: lower != Tokens
  {
  }

  lemma RefusingIsFirst(root: Json, met: seq<Visit>, front: seq<Frame>, frame: Frame, limits: Limits, nodes: nat,
                        members: nat, error: InputLimitError)
    requires AllSound(front) && frame.Sound() && Met(root, met, front + [frame], limits, nodes, members)
    requires OwnVisits(frame) != [] && error.pointer == OwnVisits(frame)[0].pointer && Exceeds(error, limits)
    requires error.dimension.Measured? && error.dimension.quantity != Tokens
    requires error.observed == OwnCount(error.dimension.quantity, frame, nodes, members)
    requires forall q | Rank(q) < Rank(error.dimension.quantity) :: OwnCount(q, frame, nodes, members) <= limits.OfQuantity(q)
    ensures FirstRefused(VisitsOf(root, 0, []), limits, error)
  {
    hide *;
    PoppedVisits(front, frame);
    SoundTogether(front, frame, frame.Successors());
    MetMeans(root, met, front + [frame], limits, nodes, members);
    OwnIsOne(frame);
    var own, rest := OwnVisits(frame), PendingVisits(front + frame.Successors());
    assert met + (own + rest) == met + own + rest;
    forall q: Quantity | q != Tokens ensures OwnCount(q, frame, nodes, members) == ObservedNext(q, met, own[0]) {
      OwnIsObserved(q, met, frame, nodes, members);
    }
    TokensRankLast(error.dimension.quantity);
    NextIsRefused(met, own[0], rest, limits, error);
  }

  lemma NodeIsRefusedHere(root: Json, frame: Frame, error: InputLimitError, limits: Limits, nodes: nat, members: nat)
    requires frame.ValueFrame? && Placed(root, frame) && error.pointer == frame.pointer && Exceeds(error, limits)
    requires error.dimension.Measured? && error.observed == OwnCount(error.dimension.quantity, frame, nodes, members)
    requires error.dimension.quantity != Tokens
    requires nodes <= limits.nodes && members + OwnMeasure(Members, frame) <= ValueMeasure(Members, root)
    ensures RefusedHere(root, error, limits)
  {
    var q := error.dimension.quantity;
    CountsOfFrame(frame, limits, nodes, 0);
    if IsPeak(q) {
      OwnSizeIsHere(q, root, frame);
    }
    assert Addresses(root, error.pointer, frame.value);
  }

  /** The checks on one value, in the order the walk makes them. */
  method CheckNode(frame: Frame, limits: Limits, nodes: nat, members: nat)
    returns (error: Option<InputLimitError>, nodes': nat, members': nat)
    requires frame.ValueFrame? && nodes < USIZE_MAX && members + OwnMeasure(Members, frame) <= USIZE_MAX
    requires members <= limits.members
    ensures nodes' == nodes + 1 == nodes + OwnMeasure(Nodes, frame)
    ensures error.None? <==> OwnFits(frame, limits, nodes, members)
    ensures error.None? ==> members' == members + OwnMeasure(Members, frame)
    ensures error.Some? ==> error.value.pointer == frame.pointer && Exceeds(error.value, limits)
    ensures error.Some? ==>
              && error.value.dimension.Measured? && error.value.dimension.quantity != Tokens
              && error.value.observed == OwnCount(error.value.dimension.quantity, frame, nodes, members)
              && forall q | Rank(q) < Rank(error.value.dimension.quantity) ::
                   OwnCount(q, frame, nodes, members) <= limits.OfQuantity(q)
  {
    var ValueFrame(value, depth, pointer) := frame;
    nodes', members' := SaturatingAdd(nodes, 1), members;
    if depth > limits.depth {
      error := Some(InputLimitError(Measured(Depth), limits.depth, depth, pointer));
      assert IsPeak(Depth) && OwnMeasure(Depth, frame) > limits.OfQuantity(Depth);
    } else if nodes' > limits.nodes {
      error := Some(InputLimitError(Measured(Nodes), limits.nodes, nodes', pointer));
    } else if value.Array? {
      error := CheckLength(|value.items|, limits, pointer);
      assert OwnMeasure(CollectionLength, frame) == |value.items|;
    } else if value.Object? {
      members' := SaturatingAdd(members, |value.members|);
      if members' > limits.members {
        error := Some(InputLimitError(Measured(Members), limits.members, members', pointer));
      } else {
        error := CheckLength(|value.members|, limits, pointer);
        assert OwnMeasure(CollectionLength, frame) == |value.members|;
      }
    } else {
      var size := ScalarSize(value);
      error := if size > limits.scalarBytes
        then Some(InputLimitError(Measured(ScalarBytes), limits.scalarBytes, size, pointer)) else None;
      assert OwnMeasure(ScalarBytes, frame) == size;
    }
  }

  method CheckLength(length: nat, limits: Limits, pointer: Bytes) returns (error: Option<InputLimitError>)
    ensures error.None? <==> length <= limits.OfQuantity(CollectionLength)
    ensures error.Some? ==>
              error.value == InputLimitError(Measured(CollectionLength), limits.collectionLength, length, pointer)
  {
    error := if length > limits.collectionLength
      then Some(InputLimitError(Measured(CollectionLength), limits.collectionLength, length, pointer)) else None;
  }

  /** The frames a step pushes in place of the one it popped. */
  method Expand(frame: Frame) returns (pushed: seq<Frame>)
    requires frame.Sound()
    ensures pushed == frame.Successors()
  {
    pushed := [];
    match frame
    case ValueFrame(Array(items), depth, pointer) => pushed := [ArrayFrame(items, 0, depth, pointer)];
    case ValueFrame(Object(members), depth, pointer) =>
      var keys := SortKeys(members.Keys);
      pushed := [ObjectFrame(frame.value, keys, depth, pointer)];
    case ValueFrame(_, _, _) =>
    case ObjectFrame(owner, rest, depth, pointer) =>
      if rest != [] {
        pushed := [ObjectFrame(owner, rest[1..], depth, pointer),
                   ValueFrame(owner.members[rest[0]], depth + 1, AppendToken(pointer, rest[0]))];
      }
    case ArrayFrame(items, next, depth, pointer) =>
      if next != |items| {
        pushed := [ArrayFrame(items, next + 1, depth, pointer),
                   ValueFrame(items[next], depth + 1, pointer + ([SLASH] + NatText(next)))];
      }
  }

  /** The check made on the name of the next member. */
  method CheckName(frame: Frame, limits: Limits) returns (error: Option<InputLimitError>)
    ensures error.Some? <==> frame.ObjectFrame? && frame.rest != [] && |frame.rest[0]| > limits.scalarBytes
    ensures error.Some? ==>
              error.value == InputLimitError(Measured(ScalarBytes), limits.scalarBytes, |frame.rest[0]|,
                                             AppendToken(frame.pointer, frame.rest[0]))
  {
    error := None;
    if frame.ObjectFrame? && frame.rest != [] && |frame.rest[0]| > limits.scalarBytes {
      error := Some(InputLimitError(Measured(ScalarBytes), limits.scalarBytes, |frame.rest[0]|,
                                    AppendToken(frame.pointer, frame.rest[0])));
    }
  }

  lemma NameIsRefusedHere(root: Json, frame: Frame, limits: Limits)
    requires frame.ObjectFrame? && frame.rest != [] && |frame.rest[0]| > limits.scalarBytes
    requires SizeAt(ScalarBytes, root, AppendToken(frame.pointer, frame.rest[0]), |frame.rest[0]|)
    ensures RefusedHere(root, InputLimitError(Measured(ScalarBytes), limits.scalarBytes, |frame.rest[0]|,
                                              AppendToken(frame.pointer, frame.rest[0])), limits)
  {
  }

  lemma NodeIsVisited(frame: Frame)
    requires frame.ValueFrame?
    ensures OwnVisits(frame) != [] && OwnVisits(frame)[0].pointer == frame.pointer
  {
  }

  lemma NameIsVisited(frame: Frame, limits: Limits, nodes: nat, members: nat)
    requires frame.ObjectFrame? && frame.rest != [] && nodes <= limits.nodes && members <= limits.members
    ensures OwnVisits(frame) != [] && OwnVisits(frame)[0].pointer == AppendToken(frame.pointer, frame.rest[0])
    ensures OwnCount(ScalarBytes, frame, nodes, members) == |frame.rest[0]|
    ensures forall q | Rank(q) < Rank(ScalarBytes) :: OwnCount(q, frame, nodes, members) <= limits.OfQuantity(q)
    ensures |frame.rest[0]| > limits.scalarBytes ==>
              Exceeds(InputLimitError(Measured(ScalarBytes), limits.scalarBytes, |frame.rest[0]|,
                                      AppendToken(frame.pointer, frame.rest[0])), limits)
  {
  }

  /** One iteration of the walk: pops a frame, checks it and pushes what is left of it. */
  method WalkStep(ghost root: Json, before: seq<Frame>, limits: Limits, nodes: nat, members: nat, ghost met: seq<Visit>)
    returns (error: Option<InputLimitError>, pending: seq<Frame>, nodes': nat, members': nat, ghost met': seq<Visit>)
    requires before != [] && AllSound(before) && AllPlaced(root, before) && OnCourse(root, before, limits, nodes, members)
    requires ValueMeasure(Nodes, root) <= USIZE_MAX && ValueMeasure(Members, root) <= USIZE_MAX
    requires Met(root, met, before, limits, nodes, members)
    ensures nodes <= nodes' <= nodes + 1 && nodes <= limits.nodes
    ensures error.Some? ==> RefusedHere(root, error.value, limits) && !Fits(root, limits)
    ensures error.Some? ==> FirstRefused(VisitsOf(root, 0, []), limits, error.value)
    ensures error.None? ==> AllSound(pending) && Met(root, met', pending, limits, nodes', members')
    ensures error.None? ==> AllSound(pending) && AllPlaced(root, pending)
    ensures error.None? ==> OnCourse(root, pending, limits, nodes', members')
    ensures error.None? ==> PendingMeasure(Nodes, pending) == PendingMeasure(Nodes, before) - (nodes' - nodes)
    ensures error.None? && nodes' == nodes ==> StepsLeft(pending) < StepsLeft(before)
  {
    hide Placed, SizeAt, ValueMeasure, PendingMeasure, OwnMeasure, OwnFits, OnCourse, Fits, StepsLeft, Frame.Successors,
         RefusedHere, OwnCount, Exceeds, Met, FirstRefused, VisitsOf, OwnVisits, Rank;
    met' := met + OwnVisits(before[|before| - 1]);
    var frame := before[|before| - 1];
    var front := before[..|before| - 1];
    assert before == front + [frame];
    WithinCounts(root, before, limits, nodes, members);
    StaysOnCourse(root, front, frame, limits, nodes, members);
    CountsOfFrame(frame, limits, nodes, members);
    SuccessorsArePlaced(root, frame);
    nodes', members', pending, error := nodes, members, before, None;
    if frame.ValueFrame? {
      error, nodes', members' := CheckNode(frame, limits, nodes, members);
      if error.Some? {
        NodeIsRefusedHere(root, frame, error.value, limits, nodes, members);
        NodeIsVisited(frame);
        RefusingIsFirst(root, met, front, frame, limits, nodes, members, error.value);
      }
    } else {
      StepsShrink(front, frame);
      error := CheckName(frame, limits);
      if error.Some? {
        NameIsRefusedHere(root, frame, limits);
        NameIsVisited(frame, limits, nodes, members);
        RefusingIsFirst(root, met, front, frame, limits, nodes, members, error.value);
      }
    }
    if error.None? {
      PassingIsMet(root, met, front, frame, limits, nodes, members);
      var pushed := Expand(frame);
      pending := front + pushed;
    }
  }

  /** `check_input_value`: accepts exactly the trees that fit, and visits no more values than it must. */
  method CheckInputValue(value: Json, limits: Limits) returns (r: Result<(), InputLimitError>, ghost visits: nat)
    requires ValueMeasure(Nodes, value) <= USIZE_MAX && ValueMeasure(Members, value) <= USIZE_MAX
    ensures r.Ok? <==> Fits(value, limits)
    ensures r.Err? ==> RefusedHere(value, r.error, limits)
    ensures r.Err? ==> FirstRefused(VisitsOf(value, 0, []), limits, r.error)
    ensures visits <= limits.nodes + 1
  {
    var nodes: nat, members: nat := 0, 0;
    var pending := [ValueFrame(value, 0, [])];
    ghost var met: seq<Visit> := [];
    StartsOnCourse(value, limits);
    StartsMeeting(value, limits);
    while pending != []
      invariant AllSound(pending) && AllPlaced(value, pending) && OnCourse(value, pending, limits, nodes, members)
      invariant Met(value, met, pending, limits, nodes, members)
      decreases PendingMeasure(Nodes, pending), StepsLeft(pending)
    {
      hide Placed, ValueMeasure, PendingMeasure, OnCourse, StepsLeft, RefusedHere, Met, FirstRefused,
           VisitsOf;
      var error;
      error, pending, nodes, members, met := WalkStep(value, pending, limits, nodes, members, met);
      if error.Some? {
        return Err(error.value), nodes;
      }
    }
    EndsOnCourse(value, limits, nodes, members);
    return Ok(()), nodes;
  }

  lemma WithinCounts(root: Json, pending: seq<Frame>, limits: Limits, nodes: nat, members: nat)
    requires AllSound(pending) && OnCourse(root, pending, limits, nodes, members)
    ensures nodes <= limits.nodes && members <= limits.members
  {
  }

  lemma EndsOnCourse(root: Json, limits: Limits, nodes: nat, members: nat)
    requires OnCourse(root, [], limits, nodes, members)
    ensures Fits(root, limits)
  {
    forall q: Quantity | q != Tokens ensures ValueMeasure(q, root) <= limits.OfQuantity(q) {
      assert IsPeak(q) ==> PendingMeasure(q, []) == 0;
    }
  }

  lemma CountsOfFrame(frame: Frame, limits: Limits, nodes: nat, members: nat)
    requires nodes <= limits.nodes && members <= limits.members
    ensures frame.ValueFrame? ==> OwnMeasure(Nodes, frame) == 1
    ensures !frame.ValueFrame? ==> OwnMeasure(Nodes, frame) == OwnMeasure(Members, frame) == 0
    ensures !frame.ValueFrame? ==>
              (OwnFits(frame, limits, nodes, members)
               <==> (frame.ObjectFrame? && frame.rest != [] ==> |frame.rest[0]| <= limits.scalarBytes))
  {
    if frame.ObjectFrame? && frame.rest != [] {
      assert IsPeak(ScalarBytes) && OwnMeasure(ScalarBytes, frame) == |frame.rest[0]|;
    }
  }

  lemma StartsOnCourse(value: Json, limits: Limits)
    ensures OnCourse(value, [ValueFrame(value, 0, [])], limits, 0, 0)
  {
    forall q: Quantity ensures PendingMeasure(q, [ValueFrame(value, 0, [])]) == ValueMeasure(q, value) {
      OneFrame(q, ValueFrame(value, 0, []));
    }
  }
}
