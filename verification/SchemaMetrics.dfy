/** The explicit-stack walk that measures a parsed schema, and its agreement with the tree and with its text. */
module SchemaMetrics {
  import opened Bytes
  import opened Json
  import opened JsonText
  import opened KeyOrder
  import opened Scanner
  import opened TreeMetrics
  import opened PointerText
  import opened TreeWalk
  import opened PointerLengths
  import opened DocumentOrder

  /** A largest size, and where it was first met. */
  datatype Peak = Peak(size: nat, pointer: Bytes) {
    function Raise(other: nat, at: Bytes): Peak {
      if other > size then Peak(other, at) else this
    }
  }

  /** The longest collection is called `members` in the code, and the longest pointer `pointer_bytes`. */
  datatype Metrics = Metrics(nodes: nat, tokens: nat, depth: Peak, members: Peak, scalar: Peak, longest: Peak) {
    function PeakOf(q: Quantity): Peak
      requires IsPeak(q)
    {
      match q
      case Depth => depth
      case CollectionLength => members
      case ScalarBytes => scalar
    }
  }

  // ----------------------------------------------------------- what a tree's tokens are

  lemma {:induction false} ItemTokens(items: seq<Json>)
    ensures ItemMeasure(Tokens, items) == ItemMeasure(Nodes, items) + ItemMeasure(Members, items)
    decreases items, 0
  {
    if items != [] {
      TokensAreNodesAndMembers(items[0]);
      ItemTokens(items[1..]);
    }
  }

  lemma {:induction false} MemberTokens(owner: Json, keys: seq<Bytes>)
    requires owner.Object? && forall key | key in keys :: key in owner.members
    ensures MemberMeasure(Tokens, owner, keys)
         == |keys| + MemberMeasure(Nodes, owner, keys) + MemberMeasure(Members, owner, keys)
    decreases owner, 0, |keys|
  {
    if keys != [] {
      TokensAreNodesAndMembers(owner.members[keys[0]]);
      MemberTokens(owner, keys[1..]);
      hide ValueMeasure;
    }
  }

  /** Every token of a tree is a value or the name of a member. */
  lemma {:induction false} TokensAreNodesAndMembers(v: Json)
    ensures ValueMeasure(Tokens, v) == ValueMeasure(Nodes, v) + ValueMeasure(Members, v)
    decreases v, 1
  {
    match v
    case Array(items) => ItemTokens(items);
    case Object(members) =>
      SortedKeysListAll(members.Keys);
      MemberTokens(v, SortedKeys(members.Keys));
    case _ =>
  }

  // ---------------------------------------------------------------------- the walk

  /** What has been measured and what is pending make up the whole tree, and every peak is found where it says. */
  ghost predicate Measuring(root: Json, pending: seq<Frame>, m: Metrics)
    requires AllSound(pending)
  {
    && ValueMeasure(Nodes, root) == m.nodes + PendingMeasure(Nodes, pending)
    && ValueMeasure(Tokens, root) == m.tokens + PendingMeasure(Nodes, pending) + PendingMeasure(Members, pending)
    && PeaksAreReal(root, m)
    && LongestBelow(root) == Max(m.longest.size, LongestPending(pending))
    && forall q: Quantity | IsPeak(q) :: ValueMeasure(q, root) == Max(m.PeakOf(q).size, PendingMeasure(q, pending))
  }

  ghost predicate PeaksAreReal(root: Json, m: Metrics) {
    && PointerIsReal(root, m.longest)
    && forall q: Quantity | IsPeak(q) :: PeakIsReal(q, root, m.PeakOf(q))
  }

  /** The pointer leads to a place of the tree and is as long as recorded. */
  ghost predicate PointerIsReal(root: Json, peak: Peak) {
    peak.size == |peak.pointer| && exists value :: Addresses(root, peak.pointer, value)
  }

  ghost predicate PeakIsReal(q: Quantity, root: Json, peak: Peak)
    requires IsPeak(q)
  {
    if peak.size == 0 then peak.pointer == [] else SizeAt(q, root, peak.pointer, peak.size)
  }

  /** The metrics once a frame is accounted for. */
  ghost predicate Accounted(frame: Frame, before: Metrics, after: Metrics) {
    && after.nodes == before.nodes + OwnMeasure(Nodes, frame)
    && after.tokens == before.tokens + OwnMeasure(Nodes, frame) + OwnMeasure(Members, frame)
    && after.longest.size == Max(before.longest.size, OwnPointer(frame))
    && forall q: Quantity | IsPeak(q) :: after.PeakOf(q).size == Max(before.PeakOf(q).size, OwnMeasure(q, frame))
  }

  lemma AccountingKeepsMeasuring(root: Json, front: seq<Frame>, frame: Frame, before: Metrics, after: Metrics)
    requires AllSound(front) && frame.Sound() && Measuring(root, front + [frame], before)
    requires Accounted(frame, before, after) && PeaksAreReal(root, after)
    ensures AllSound(frame.Successors()) && Measuring(root, front + frame.Successors(), after)
    ensures PendingMeasure(Nodes, front + frame.Successors())
         == PendingMeasure(Nodes, front + [frame]) - OwnMeasure(Nodes, frame)
  {
    hide FrameMeasure, OwnMeasure, PendingMeasure, ValueMeasure, PeaksAreReal, Frame.Successors, Frame.Sound;
    PoppedMeasure(Nodes, front, frame);
    PoppedMeasure(Members, front, frame);
    PoppedPointer(front, frame);
    LargestOfThree(before.longest.size, OwnPointer(frame), LongestPending(front + frame.Successors()));
    hide LongestPending, LongestBelow, OwnPointer, PointerIsReal;
    forall q: Quantity | IsPeak(q)
      ensures ValueMeasure(q, root) == Max(after.PeakOf(q).size, PendingMeasure(q, front + frame.Successors()))
    {
      PoppedMeasure(q, front, frame);
      LargestOfThree(before.PeakOf(q).size, OwnMeasure(q, frame), PendingMeasure(q, front + frame.Successors()));
      hide Max, Metrics.PeakOf;
    }
  }

  lemma LargestOfThree(a: nat, b: nat, c: nat)
    ensures Max(a, Max(b, c)) == Max(Max(a, b), c)
  {
  }

  lemma CountsStayWithin(root: Json, front: seq<Frame>, frame: Frame, m: Metrics)
    requires AllSound(front) && frame.Sound() && Measuring(root, front + [frame], m)
    ensures m.nodes + OwnMeasure(Nodes, frame) <= ValueMeasure(Nodes, root)
    ensures m.tokens + OwnMeasure(Nodes, frame) + OwnMeasure(Members, frame) <= ValueMeasure(Tokens, root)
    ensures OwnMeasure(Depth, frame) <= ValueMeasure(Depth, root)
  {
    hide FrameMeasure, OwnMeasure, PendingMeasure, ValueMeasure, PeaksAreReal, Frame.Successors, Frame.Sound, LongestPending,
         LongestBelow, Metrics.PeakOf;
    PoppedMeasure(Nodes, front, frame);
    PoppedMeasure(Members, front, frame);
    PoppedMeasure(Depth, front, frame);
    assert IsPeak(Depth) && ValueMeasure(Depth, root) == Max(m.PeakOf(Depth).size, PendingMeasure(Depth, front + [frame]));
  }

  /** A peak raised by what a value accounts for is found at the value. */
  lemma RaisedPeakIsReal(q: Quantity, root: Json, frame: Frame, peak: Peak)
    requires IsPeak(q) && frame.ValueFrame? && Placed(root, frame) && PeakIsReal(q, root, peak)
    ensures PeakIsReal(q, root, peak.Raise(OwnMeasure(q, frame), frame.pointer))
  {
    if OwnMeasure(q, frame) > peak.size {
      OwnSizeIsHere(q, root, frame);
    }
  }

  /** The metrics once a value is accounted for, every larger size recorded with the value's place. */
  ghost predicate RaisedBy(frame: Frame, before: Metrics, after: Metrics) {
    && after.nodes == before.nodes + OwnMeasure(Nodes, frame)
    && after.tokens == before.tokens + OwnMeasure(Nodes, frame) + OwnMeasure(Members, frame)
    && after.depth == before.depth.Raise(OwnMeasure(Depth, frame), frame.pointer)
    && after.members == before.members.Raise(OwnMeasure(CollectionLength, frame), frame.pointer)
    && after.scalar == before.scalar.Raise(OwnMeasure(ScalarBytes, frame), frame.pointer)
    && after.longest == before.longest.Raise(|frame.pointer|, frame.pointer)
  }

  lemma RaisingAccounts(root: Json, frame: Frame, before: Metrics, after: Metrics)
    requires frame.ValueFrame? && Placed(root, frame) && PeaksAreReal(root, before) && RaisedBy(frame, before, after)
    ensures Accounted(frame, before, after) && PeaksAreReal(root, after)
  {
    assert Addresses(root, frame.pointer, frame.value);
    forall q: Quantity | IsPeak(q)
      ensures after.PeakOf(q).size == Max(before.PeakOf(q).size, OwnMeasure(q, frame))
      ensures PeakIsReal(q, root, after.PeakOf(q))
    {
      RaisedPeakIsReal(q, root, frame, before.PeakOf(q));
      hide OwnMeasure, Placed, PeakIsReal;
    }
  }

  // ------------------------------------------------------------------- the order of the walk

  /** The size of a place for one of the peaks: a quantity, or the length of the pointer to a value. */
  function PeakSize(q: Option<Quantity>, visit: Visit): nat {
    match q
    case Some(quantity) => visit.Size(quantity)
    case None => if visit.ValueVisit? then |visit.pointer| else 0
  }

  /** The peak is the largest size, where it was first met. */
  ghost predicate IsFirstLargest(q: Option<Quantity>, visits: seq<Visit>, peak: Peak) {
    && (forall i | 0 <= i < |visits| :: PeakSize(q, visits[i]) <= peak.size)
    && if peak.size == 0 then peak.pointer == []
       else exists i :: 0 <= i < |visits| && PeakSize(q, visits[i]) == peak.size && visits[i].pointer == peak.pointer
                     && forall j | 0 <= j < i :: PeakSize(q, visits[j]) < peak.size
  }

  /** The metrics of the places met so far. */
  ghost predicate MetricsOf(visits: seq<Visit>, m: Metrics) {
    && m.nodes == Count(Nodes, visits) && m.tokens == Count(Nodes, visits) + Count(Members, visits)
    && IsFirstLargest(Some(Depth), visits, m.depth) && IsFirstLargest(Some(CollectionLength), visits, m.members)
    && IsFirstLargest(Some(ScalarBytes), visits, m.scalar) && IsFirstLargest(None, visits, m.longest)
  }

  /** Measuring stops at the first place that is too deep, once it is counted. */
  ghost predicate StopsAt(visits: seq<Visit>, i: nat, depthLimit: nat, m: Metrics)
    requires i < |visits|
  {
    && visits[i].ValueVisit? && visits[i].depth > depthLimit
    && (forall j | 0 <= j < i :: visits[j].Size(Depth) <= depthLimit)
    && exists before :: MetricsOf(visits[..i], before)
         && m == before.(nodes := before.nodes + 1, tokens := before.tokens + 1,
                         depth := Peak(visits[i].depth, visits[i].pointer))
  }

  ghost function AfterVisit(m: Metrics, visit: Visit): Metrics {
    Metrics(m.nodes + visit.Size(Nodes), m.tokens + visit.Size(Nodes) + visit.Size(Members),
            m.depth.Raise(visit.Size(Depth), visit.pointer), m.members.Raise(visit.Size(CollectionLength), visit.pointer),
            m.scalar.Raise(visit.Size(ScalarBytes), visit.pointer), m.longest.Raise(PeakSize(None, visit), visit.pointer))
  }

  lemma RaisedIsFirstLargest(q: Option<Quantity>, visits: seq<Visit>, peak: Peak, visit: Visit)
    requires IsFirstLargest(q, visits, peak)
    ensures IsFirstLargest(q, visits + [visit], peak.Raise(PeakSize(q, visit), visit.pointer))
  {
    hide PeakSize;
    var more, raised := visits + [visit], peak.Raise(PeakSize(q, visit), visit.pointer);
    assert more[|visits|] == visit && forall i | 0 <= i < |visits| :: more[i] == visits[i];
    if PeakSize(q, visit) <= peak.size && peak.size != 0 {
      var i :| 0 <= i < |visits| && PeakSize(q, visits[i]) == peak.size && visits[i].pointer == peak.pointer
               && forall j | 0 <= j < i :: PeakSize(q, visits[j]) < peak.size;
      assert more[i] == visits[i];
    }
  }

  lemma VisitedMetrics(visits: seq<Visit>, m: Metrics, visit: Visit)
    requires MetricsOf(visits, m)
    ensures MetricsOf(visits + [visit], AfterVisit(m, visit))
  {
    hide IsFirstLargest, Count, Visit.Size, Peak.Raise;
    CountOneMore(Nodes, visits, visit);
    CountOneMore(Members, visits, visit);
    RaisedIsFirstLargest(Some(Depth), visits, m.depth, visit);
    RaisedIsFirstLargest(Some(CollectionLength), visits, m.members, visit);
    RaisedIsFirstLargest(Some(ScalarBytes), visits, m.scalar, visit);
    RaisedIsFirstLargest(None, visits, m.longest, visit);
  }

  ghost predicate Noted(root: Json, met: seq<Visit>, pending: seq<Frame>, m: Metrics)
    requires AllSound(pending)
  {
    VisitsOf(root, 0, []) == met + PendingVisits(pending) && MetricsOf(met, m)
  }

  lemma NothingNoted(root: Json)
    ensures Noted(root, [], [ValueFrame(root, 0, [])], Metrics(0, 0, Peak(0, []), Peak(0, []), Peak(0, []), Peak(0, [])))
  {
    OnePending(ValueFrame(root, 0, []));
    hide PendingVisits, VisitsOf;
    assert [] + VisitsOf(root, 0, []) == VisitsOf(root, 0, []);
  }

  lemma PoppedIsNoted(root: Json, met: seq<Visit>, front: seq<Frame>, frame: Frame, before: Metrics, after: Metrics)
    requires AllSound(front) && frame.Sound() && Noted(root, met, front + [frame], before)
    requires after == if OwnVisits(frame) == [] then before else AfterVisit(before, OwnVisits(frame)[0])
    ensures AllSound(front + frame.Successors()) && Noted(root, met + OwnVisits(frame), front + frame.Successors(), after)
  {
    hide *;
    PoppedVisits(front, frame);
    OwnIsOne(frame);
    SoundTogether(front, frame, frame.Successors());
    NotedMeans(root, met, front + [frame], before);
    if OwnVisits(frame) == [] {
      assert met + [] == met;
    } else {
      VisitedMetrics(met, before, OwnVisits(frame)[0]);
    }
    NotedOneMore(root, met, OwnVisits(frame), front + frame.Successors(), after);
  }

  lemma NotedMeans(root: Json, met: seq<Visit>, pending: seq<Frame>, m: Metrics)
    requires AllSound(pending) && Noted(root, met, pending, m)
    ensures VisitsOf(root, 0, []) == met + PendingVisits(pending) && MetricsOf(met, m)
  {
  }

  lemma NotedOneMore(root: Json, met: seq<Visit>, own: seq<Visit>, pending: seq<Frame>, m: Metrics)
    requires AllSound(pending) && VisitsOf(root, 0, []) == met + (own + PendingVisits(pending)) && MetricsOf(met + own, m)
    ensures Noted(root, met + own, pending, m)
  {
    hide AllSound, VisitsOf, PendingVisits, MetricsOf;
    assert met + (own + PendingVisits(pending)) == met + own + PendingVisits(pending);
  }

  lemma RaisedIsAfterVisit(frame: Frame, before: Metrics, after: Metrics)
    requires frame.ValueFrame? && RaisedBy(frame, before, after)
    ensures OwnVisits(frame) != [] && after == AfterVisit(before, OwnVisits(frame)[0])
  {
    OwnSize(Nodes, frame);
    OwnSize(Members, frame);
    OwnSize(Depth, frame);
    OwnSize(CollectionLength, frame);
    OwnSize(ScalarBytes, frame);
    NodeIsVisited(frame);
    assert OwnVisits(frame)[0].ValueVisit?;
    hide OwnMeasure, OwnVisits, Visit.Size;
  }

  lemma TooDeepStops(root: Json, met: seq<Visit>, front: seq<Frame>, frame: Frame, depthLimit: nat, before: Metrics, m: Metrics)
    requires AllSound(front) && frame.Sound() && frame.ValueFrame? && Noted(root, met, front + [frame], before)
    requires before.depth.size <= depthLimit < frame.depth
    requires m == before.(nodes := before.nodes + 1, tokens := before.tokens + 1, depth := Peak(frame.depth, frame.pointer))
    ensures |met| < |VisitsOf(root, 0, [])| && StopsAt(VisitsOf(root, 0, []), |met|, depthLimit, m)
  {
    PoppedVisits(front, frame);
    SoundTogether(front, frame, frame.Successors());
    hide PendingVisits, VisitsOf, Count, Frame.Successors, AllSound;
    var visits, i := VisitsOf(root, 0, []), |met|;
    var rest := PendingVisits(front + frame.Successors());
    assert visits == met + ([ValueVisit(frame.value, frame.depth, frame.pointer)] + rest);
    assert visits[..i] == met && visits[i] == ValueVisit(frame.value, frame.depth, frame.pointer);
    forall j | 0 <= j < i ensures visits[j].Size(Depth) <= depthLimit {
      assert PeakSize(Some(Depth), met[j]) <= before.depth.size;
    }
  }

  /** Counts one value and the depth at which it stands. */
  method CountPlace(frame: Frame, before: Metrics) returns (m: Metrics)
    requires frame.ValueFrame? && before.nodes + 1 <= USIZE_MAX && before.tokens + 1 <= USIZE_MAX
    ensures m == before.(nodes := before.nodes + OwnMeasure(Nodes, frame),
                         tokens := before.tokens + OwnMeasure(Nodes, frame),
                         depth := before.depth.Raise(OwnMeasure(Depth, frame), frame.pointer))
  {
    m := before.(nodes := SaturatingAdd(before.nodes, 1), tokens := SaturatingAdd(before.tokens, 1));
    if frame.depth > m.depth.size {
      m := m.(depth := Peak(frame.depth, frame.pointer));
    }
  }

  /** Measures the pointer and the content of a value that is not too deep. */
  method MeasureContent(frame: Frame, before: Metrics) returns (m: Metrics)
    requires frame.ValueFrame? && before.tokens + OwnMeasure(Members, frame) <= USIZE_MAX
    ensures m == before.(tokens := before.tokens + OwnMeasure(Members, frame),
                         members := before.members.Raise(OwnMeasure(CollectionLength, frame), frame.pointer),
                         scalar := before.scalar.Raise(OwnMeasure(ScalarBytes, frame), frame.pointer),
                         longest := before.longest.Raise(|frame.pointer|, frame.pointer))
  {
    var ValueFrame(value, depth, pointer) := frame;
    m := before.(longest := before.longest.Raise(|pointer|, pointer));
    match value {
      case Object(members) =>
        m := m.(tokens := SaturatingAdd(m.tokens, |members|), members := m.members.Raise(|members|, pointer));
      case Array(items) => m := m.(members := m.members.Raise(|items|, pointer));
      case _ => m := m.(scalar := m.scalar.Raise(ScalarSize(value), pointer));
    }
  }

  lemma CountedPeaksAreReal(root: Json, frame: Frame, before: Metrics, after: Metrics)
    requires frame.ValueFrame? && Placed(root, frame) && PeaksAreReal(root, before)
    requires after == before.(nodes := after.nodes, tokens := after.tokens,
                              depth := before.depth.Raise(OwnMeasure(Depth, frame), frame.pointer))
    ensures PeaksAreReal(root, after)
  {
    RaisedPeakIsReal(Depth, root, frame, before.PeakOf(Depth));
    hide PeakIsReal, PointerIsReal, Placed, OwnMeasure;
    forall q: Quantity | IsPeak(q) ensures PeakIsReal(q, root, after.PeakOf(q)) {
      assert PeakIsReal(q, root, before.PeakOf(q));
    }
  }

  /** Measures the name of the next member, if there is one. */
  method MeasureName(ghost root: Json, frame: Frame, before: Metrics) returns (m: Metrics)
    requires !frame.ValueFrame? && frame.Sound() && PeaksAreReal(root, before)
    requires frame.ObjectFrame? && frame.rest != [] ==>
               SizeAt(ScalarBytes, root, AppendToken(frame.pointer, frame.rest[0]), |frame.rest[0]|)
    ensures Accounted(frame, before, m) && PeaksAreReal(root, m) && m.depth == before.depth
    ensures m == if OwnVisits(frame) == [] then before else AfterVisit(before, OwnVisits(frame)[0])
  {
    m := before;
    if frame.ObjectFrame? && frame.rest != [] {
      m := m.(scalar := m.scalar.Raise(|frame.rest[0]|, AppendToken(frame.pointer, frame.rest[0])));
    }
    NamedPeaksAreReal(root, frame, before, m);
  }

  lemma NamedPeaksAreReal(root: Json, frame: Frame, before: Metrics, after: Metrics)
    requires !frame.ValueFrame? && PeaksAreReal(root, before)
    requires frame.ObjectFrame? && frame.rest != [] ==>
               && SizeAt(ScalarBytes, root, AppendToken(frame.pointer, frame.rest[0]), |frame.rest[0]|)
               && after == before.(scalar := before.scalar.Raise(|frame.rest[0]|, AppendToken(frame.pointer, frame.rest[0])))
    requires !(frame.ObjectFrame? && frame.rest != []) ==> after == before
    ensures Accounted(frame, before, after) && PeaksAreReal(root, after)
  {
    hide SizeAt, PointerIsReal, AppendToken;
    forall q: Quantity | IsPeak(q)
      ensures after.PeakOf(q).size == Max(before.PeakOf(q).size, OwnMeasure(q, frame))
      ensures PeakIsReal(q, root, after.PeakOf(q))
    {
      assert PeakIsReal(q, root, before.PeakOf(q));
    }
  }

  /** One iteration of the walk: pops a frame, measures it, and unless it is too deep pushes what is left of it. */
  method MeasureStep(ghost root: Json, before: seq<Frame>, depthLimit: nat, measured: Metrics, ghost met: seq<Visit>)
    returns (tooDeep: bool, pending: seq<Frame>, m: Metrics, ghost met': seq<Visit>)
    requires before != [] && AllSound(before) && AllPlaced(root, before) && Measuring(root, before, measured)
    requires ValueMeasure(Tokens, root) <= USIZE_MAX && measured.depth.size <= depthLimit
    requires Noted(root, met, before, measured)
    ensures PeaksAreReal(root, m)
    ensures tooDeep ==> |met| < |VisitsOf(root, 0, [])| && StopsAt(VisitsOf(root, 0, []), |met|, depthLimit, m)
    ensures !tooDeep ==> AllSound(pending) && Noted(root, met', pending, m)
    ensures tooDeep <==> m.depth.size > depthLimit
    ensures tooDeep ==> m.depth.size <= ValueMeasure(Depth, root)
    ensures !tooDeep ==> AllSound(pending) && AllPlaced(root, pending) && Measuring(root, pending, m)
    ensures !tooDeep ==> PendingMeasure(Nodes, pending) <= PendingMeasure(Nodes, before)
    ensures !tooDeep && PendingMeasure(Nodes, pending) == PendingMeasure(Nodes, before) ==>
              StepsLeft(pending) < StepsLeft(before)
  {
    hide Placed, SizeAt, ValueMeasure, PendingMeasure, OwnMeasure, StepsLeft, Frame.Successors, PeaksAreReal, FrameMeasure,
         LongestPending, LongestBelow, Measuring, Noted, OwnVisits, AfterVisit, StopsAt, VisitsOf;
    met' := met + OwnVisits(before[|before| - 1]);
    var frame := before[|before| - 1];
    var front := before[..|before| - 1];
    assert before == front + [frame];
    MeasuredPeaksAreReal(root, before, measured);
    SuccessorsArePlaced(root, frame);
    CountsStayWithin(root, front, frame, measured);
    OwnNodes(frame);
    TokensAreNodesAndMembers(root);
    if frame.ValueFrame? {
      m := CountPlace(frame, measured);
      CountedPeaksAreReal(root, frame, measured, m);
      if m.depth.size > depthLimit {
        TooDeepStops(root, met, front, frame, depthLimit, measured, m);
        return true, before, m, met';
      }
      m := MeasureContent(frame, m);
      RaisingAccounts(root, frame, measured, m);
      RaisedIsAfterVisit(frame, measured, m);
    } else {
      m := MeasureName(root, frame, measured);
      StepsShrink(front, frame);
    }
    AccountingKeepsMeasuring(root, front, frame, measured, m);
    PoppedIsNoted(root, met, front, frame, measured, m);
    var pushed := Expand(frame);
    tooDeep, pending := false, front + pushed;
  }

  lemma MeasuredPeaksAreReal(root: Json, pending: seq<Frame>, m: Metrics)
    requires AllSound(pending) && Measuring(root, pending, m)
    ensures PeaksAreReal(root, m)
  {
  }

  lemma OwnNodes(frame: Frame)
    ensures OwnMeasure(Nodes, frame) == if frame.ValueFrame? then 1 else 0
    ensures frame.ValueFrame? ==> OwnMeasure(Depth, frame) == frame.depth
    ensures !frame.ValueFrame? ==> OwnMeasure(Members, frame) == 0
  {
  }

  /** `value_metrics`: exact, unless the walk stops at the first value that is too deep. */
  method ValueMetrics(value: Json, depthLimit: nat) returns (m: Metrics)
    requires ValueMeasure(Tokens, value) <= USIZE_MAX
    ensures m.depth.size > depthLimit <==> ValueMeasure(Depth, value) > depthLimit
    ensures m.depth.size <= depthLimit ==>
              && m.nodes == ValueMeasure(Nodes, value) && m.tokens == ValueMeasure(Tokens, value)
              && m.longest.size == LongestBelow(value)
              && forall q: Quantity | IsPeak(q) :: m.PeakOf(q).size == ValueMeasure(q, value)
    ensures PeaksAreReal(value, m)
    ensures m.depth.size <= depthLimit ==> MetricsOf(VisitsOf(value, 0, []), m)
    ensures m.depth.size > depthLimit ==>
              exists i :: 0 <= i < |VisitsOf(value, 0, [])| && StopsAt(VisitsOf(value, 0, []), i, depthLimit, m)
  {
    hide Placed, ValueMeasure, PendingMeasure, Measuring, StepsLeft, PeaksAreReal, LongestBelow, LongestPending, Noted,
         StopsAt, VisitsOf, MetricsOf;
    m := Metrics(0, 0, Peak(0, []), Peak(0, []), Peak(0, []), Peak(0, []));
    var pending := [ValueFrame(value, 0, [])];
    ghost var met: seq<Visit> := [];
    StartsMeasuring(value, m);
    NothingNoted(value);
    var tooDeep := false;
    while pending != []
      invariant AllSound(pending) && AllPlaced(value, pending) && Measuring(value, pending, m)
      invariant Noted(value, met, pending, m) && m.depth.size <= depthLimit
      decreases PendingMeasure(Nodes, pending), StepsLeft(pending)
    {
      tooDeep, pending, m, met := MeasureStep(value, pending, depthLimit, m, met);
      if tooDeep {
        return;
      }
    }
    NothingIsLeft(value, met, m);
  }

  lemma NothingIsLeft(root: Json, met: seq<Visit>, m: Metrics)
    requires Measuring(root, [], m) && Noted(root, met, [], m)
    ensures PeaksAreReal(root, m) && MetricsOf(VisitsOf(root, 0, []), m)
    ensures m.nodes == ValueMeasure(Nodes, root) && m.tokens == ValueMeasure(Tokens, root)
    ensures m.longest.size == LongestBelow(root) && m.depth.size == ValueMeasure(Depth, root)
    ensures forall q: Quantity | IsPeak(q) :: m.PeakOf(q).size == ValueMeasure(q, root)
  {
    hide PeaksAreReal, LongestBelow, VisitsOf, MetricsOf, ValueMeasure;
    assert met + [] == met;
    assert m.PeakOf(Depth) == m.depth;
  }

  lemma StartsMeasuring(value: Json, m: Metrics)
    requires m == Metrics(0, 0, Peak(0, []), Peak(0, []), Peak(0, []), Peak(0, []))
    ensures Measuring(value, [ValueFrame(value, 0, [])], m) && PeaksAreReal(value, m)
    ensures AllPlaced(value, [ValueFrame(value, 0, [])])
  {
    TokensAreNodesAndMembers(value);
    OneIsPending(ValueFrame(value, 0, []));
    assert Addresses(value, [], value);
    forall q: Quantity ensures PendingMeasure(q, [ValueFrame(value, 0, [])]) == ValueMeasure(q, value) {
      OneFrame(q, ValueFrame(value, 0, []));
    }
  }

  /** A text without repeated names has as many tokens as the walk counts in its tree, and is as deep. */
  lemma ScannerAndWalkAgree(document: Padded)
    requires ValidPadded(document) && DistinctNames(document.text)
    ensures ScannedMeasure(Tokens, PrintPadded(document, [])) == ValueMeasure(Tokens, ValueOf(document.text))
    ensures ScannedMeasure(Depth, PrintPadded(document, [])) == ValueMeasure(Depth, ValueOf(document.text))
  {
    ScannersMeasureTheText(Tokens, document);
    ScannersMeasureTheText(Depth, document);
    TextMeasuresItsTree(Tokens, document.text);
    TextMeasuresItsTree(Depth, document.text);
  }
}
