/** The places of a tree in the order of the document: each value before what it holds, members in the order of their
names, each name before its value. */
module DocumentOrder {
  import opened Bytes
  import opened Decimal
  import opened Json
  import opened JsonText
  import opened KeyOrder
  import opened TreeMetrics
  import opened PointerText
  import opened InputLimits

  function ScalarSize(value: Json): (size: nat)
    requires !value.Array? && !value.Object?
    ensures ValueMeasure(ScalarBytes, value) == size
  {
    match value
    case Null => 4
    case Bool(flag) => if flag then 4 else 5
    case Number(text) => |text|
    case String(content) => |content|
  }

  datatype Visit = ValueVisit(value: Json, depth: nat, pointer: Bytes) | NameVisit(name: Bytes, pointer: Bytes)
  {
    /** The size of the one place, without what it holds. */
    function Size(q: Quantity): nat {
      match this
      case NameVisit(name, _) => if q == ScalarBytes then |name| else 0
      case ValueVisit(value, depth, _) =>
        match q
        case Tokens => 1
        case Nodes => 1
        case Members => if value.Object? then |value.members| else 0
        case Depth => depth
        case CollectionLength => if value.Object? then |value.members| else if value.Array? then |value.items| else 0
        case ScalarBytes => if value.Object? || value.Array? then 0 else ScalarSize(value)
    }
  }

  ghost function VisitsOf(v: Json, depth: nat, pointer: Bytes): (visits: seq<Visit>)
    decreases v, 1, 0
  {
    [ValueVisit(v, depth, pointer)] +
    match v
    case Array(items) => ItemVisits(items, 0, depth, pointer)
    case Object(members) =>
      SortedKeysListAll(members.Keys);
      MemberVisits(v, SortedKeys(members.Keys), depth, pointer)
    case _ => []
  }

  ghost function ItemVisits(items: seq<Json>, from: nat, depth: nat, pointer: Bytes): seq<Visit>
    requires from <= |items|
    decreases items, 0, |items| - from
  {
    if from == |items| then []
    else VisitsOf(items[from], depth + 1, pointer + ([SLASH] + NatText(from))) + ItemVisits(items, from + 1, depth, pointer)
  }

  ghost function MemberVisits(owner: Json, names: seq<Bytes>, depth: nat, pointer: Bytes): seq<Visit>
    requires owner.Object? && forall name | name in names :: name in owner.members
    decreases owner, 0, |names|
  {
    if names == [] then []
    else
      var at := AppendToken(pointer, names[0]);
      [NameVisit(names[0], at)] + VisitsOf(owner.members[names[0]], depth + 1, at) +
      MemberVisits(owner, names[1..], depth, pointer)
  }

  // ---------------------------------------------------------------------- counts along the way

  ghost function Count(q: Quantity, visits: seq<Visit>): nat {
    if visits == [] then 0 else Count(q, visits[..|visits| - 1]) + visits[|visits| - 1].Size(q)
  }

  /** What is compared with a limit at one place: nodes and members are counted up to there. */
  ghost function Observed(q: Quantity, visits: seq<Visit>, i: nat): nat
    requires i < |visits|
  {
    if q == Nodes || q == Members then Count(q, visits[..i + 1]) else visits[i].Size(q)
  }

  ghost predicate PassesAt(visits: seq<Visit>, i: nat, limits: Limits)
    requires i < |visits|
  {
    forall q: Quantity | q != Tokens :: Observed(q, visits, i) <= limits.OfQuantity(q)
  }

  /** In what order one place is compared with the limits. */
  function Rank(q: Quantity): nat {
    match q
    case Depth => 0
    case Nodes => 1
    case Members => 2
    case CollectionLength => 3
    case ScalarBytes => 4
    case Tokens => 5
  }

  /** The first place of the document that exceeds a limit is reported, with the first limit it exceeds. */
  ghost predicate FirstRefused(visits: seq<Visit>, limits: Limits, error: InputLimitError) {
    && error.dimension.Measured? && error.dimension.quantity != Tokens
    && exists i :: 0 <= i < |visits| && RefusedAt(visits, i, limits, error)
                && forall j | 0 <= j < i :: PassesAt(visits, j, limits)
  }

  ghost predicate RefusedAt(visits: seq<Visit>, i: nat, limits: Limits, error: InputLimitError)
    requires i < |visits| && error.dimension.Measured?
  {
    var q := error.dimension.quantity;
    && Exceeds(error, limits) && error.observed == Observed(q, visits, i) && error.pointer == visits[i].pointer
    && forall lower | Rank(lower) < Rank(q) :: Observed(lower, visits, i) <= limits.OfQuantity(lower)
  }

  lemma CountOneMore(q: Quantity, visits: seq<Visit>, visit: Visit)
    ensures Count(q, visits + [visit]) == Count(q, visits) + visit.Size(q)
  {
    assert (visits + [visit])[..|visits|] == visits;
  }

  /** What holds of a place does not depend on those behind it. */
  lemma ObservedInFront(q: Quantity, visits: seq<Visit>, more: seq<Visit>, i: nat)
    requires i < |visits|
    ensures Observed(q, visits + more, i) == Observed(q, visits, i)
  {
    assert (visits + more)[..i + 1] == visits[..i + 1];
  }

  ghost predicate AllPass(visits: seq<Visit>, limits: Limits) {
    forall i | 0 <= i < |visits| :: PassesAt(visits, i, limits)
  }

  /** What is observed at the next place, once those in front are counted. */
  ghost function ObservedNext(q: Quantity, met: seq<Visit>, visit: Visit): nat {
    if q == Nodes || q == Members then Count(q, met) + visit.Size(q) else visit.Size(q)
  }

  lemma NextIsObserved(q: Quantity, met: seq<Visit>, visit: Visit, rest: seq<Visit>)
    ensures Observed(q, met + [visit] + rest, |met|) == ObservedNext(q, met, visit)
  {
    CountOneMore(q, met, visit);
    assert (met + [visit] + rest)[..|met| + 1] == met + [visit];
  }

  lemma PassesInFront(visits: seq<Visit>, more: seq<Visit>, limits: Limits)
    requires AllPass(visits, limits)
    ensures forall i | 0 <= i < |visits| :: PassesAt(visits + more, i, limits)
  {
    forall i | 0 <= i < |visits| ensures PassesAt(visits + more, i, limits) {
      assert PassesAt(visits, i, limits);
      forall q: Quantity | q != Tokens ensures Observed(q, visits + more, i) <= limits.OfQuantity(q) {
        ObservedInFront(q, visits, more, i);
      }
    }
  }

  lemma NextPasses(met: seq<Visit>, visit: Visit, limits: Limits)
    requires AllPass(met, limits)
    requires forall q: Quantity | q != Tokens :: ObservedNext(q, met, visit) <= limits.OfQuantity(q)
    ensures AllPass(met + [visit], limits)
  {
    PassesInFront(met, [visit], limits);
    hide ObservedNext;
    forall q: Quantity | q != Tokens ensures Observed(q, met + [visit], |met|) <= limits.OfQuantity(q) {
      NextIsObserved(q, met, visit, []);
      assert met + [visit] + [] == met + [visit];
    }
    assert PassesAt(met + [visit], |met|, limits);
    hide PassesAt;
  }

  lemma NextIsRefused(met: seq<Visit>, visit: Visit, rest: seq<Visit>, limits: Limits, error: InputLimitError)
    requires AllPass(met, limits) && error.dimension.Measured? && error.dimension.quantity != Tokens
    requires Exceeds(error, limits) && error.pointer == visit.pointer
    requires error.observed == ObservedNext(error.dimension.quantity, met, visit)
    requires forall q: Quantity | Rank(q) < Rank(error.dimension.quantity) ::
               ObservedNext(q, met, visit) <= limits.OfQuantity(q)
    ensures FirstRefused(met + [visit] + rest, limits, error)
  {
    var visits := met + [visit] + rest;
    assert visits == met + ([visit] + rest);
    PassesInFront(met, [visit] + rest, limits);
    hide ObservedNext, Observed, PassesAt, Rank, Exceeds;
    forall q: Quantity ensures Observed(q, visits, |met|) == ObservedNext(q, met, visit) {
      NextIsObserved(q, met, visit, rest);
    }
    assert RefusedAt(visits, |met|, limits, error);
  }
}
