/** Numbered steps, and what leads back to itself. */
module Rings {
  type Steps = iset<(nat, nat)>

  ghost predicate Stays(steps: Steps, s: iset<nat>) {
    forall x, y | (x, y) in steps && x in s :: y in s
  }

  ghost predicate Opens(steps: Steps, x: nat, s: iset<nat>) {
    forall y | (x, y) in steps :: y in s
  }

  /** One or more steps lead from the first number to the second. */
  ghost predicate Leads(steps: Steps, x: nat, y: nat) {
    forall s: iset<nat> | Stays(steps, s) && Opens(steps, x, s) :: y in s
  }

  ghost predicate OnRing(steps: Steps, x: nat, c: nat) {
    Leads(steps, x, c) && Leads(steps, c, x)
  }

  lemma LeadsThrough(steps: Steps, x: nat, y: nat, z: nat)
    requires Leads(steps, x, y) && (Leads(steps, y, z) || (y, z) in steps)
    ensures Leads(steps, x, z)
  {
    forall s: iset<nat> | Stays(steps, s) && Opens(steps, x, s) ensures z in s {
      assert y in s;
      assert Opens(steps, y, s);
    }
  }

  ghost predicate SteppedTo(steps: Steps, x: nat, y: nat) {
    exists p :: (p == x || Leads(steps, x, p)) && (p, y) in steps
  }

  /** Whatever is led to is led to by a last step. */
  lemma LastStep(steps: Steps, x: nat, y: nat) returns (p: nat)
    requires Leads(steps, x, y)
    ensures (p == x || Leads(steps, x, p)) && (p, y) in steps
  {
    var s := iset z: nat | SteppedTo(steps, x, z);
    forall z, w | (z, w) in steps && z in s ensures w in s {
      var q :| (q == x || Leads(steps, x, q)) && (q, z) in steps;
      if q != x {
        LeadsThrough(steps, x, q, z);
      }
      assert Leads(steps, x, z);
    }
    forall z | (x, z) in steps ensures z in s {
      assert x == x && (x, z) in steps;
    }
    assert y in s;
    p :| (p == x || Leads(steps, x, p)) && (p, y) in steps;
  }

  /** On a ring, everything is stepped to from the ring. */
  lemma RingStep(steps: Steps, x: nat, c: nat) returns (p: nat)
    requires Leads(steps, x, x) && OnRing(steps, x, c)
    ensures OnRing(steps, x, p) && (p, c) in steps
  {
    p := LastStep(steps, x, c);
    forall s: iset<nat> | Stays(steps, s) && Opens(steps, p, s) ensures x in s {
      assert c in s;
      assert Opens(steps, c, s);
    }
  }

  /** A ring has a first number. */
  lemma {:induction false} FirstOnRing(steps: Steps, x: nat, c: nat) returns (f: nat)
    requires OnRing(steps, x, c)
    ensures OnRing(steps, x, f) && forall d: nat | OnRing(steps, x, d) :: f <= d
    decreases c
  {
    if d: nat :| OnRing(steps, x, d) && d < c {
      f := FirstOnRing(steps, x, d);
    } else {
      f := c;
    }
  }

  /** When the steps from the numbers between a ring's first and a bound stay below the bound, so does the ring. */
  lemma RingStaysBelow(steps: Steps, x: nat, f: nat, bound: nat)
    requires OnRing(steps, x, f) && f < bound && forall d: nat | OnRing(steps, x, d) :: f <= d
    requires forall y: nat, z: nat | (y, z) in steps && f <= y < bound :: z < bound
    ensures forall c: nat | OnRing(steps, x, c) :: c < bound
  {
    var s := iset y: nat | Leads(steps, x, y) && (OnRing(steps, x, y) ==> y < bound);
    forall y, z | (y, z) in steps && (y in s || y == f) ensures z in s {
      LeadsThrough(steps, x, y, z);
      if OnRing(steps, x, z) {
        assert OnRing(steps, x, y) by {
          forall t: iset<nat> | Stays(steps, t) && Opens(steps, y, t) ensures x in t {
            assert z in t;
            assert Opens(steps, z, t);
          }
        }
      }
    }
    assert Stays(steps, s) && Opens(steps, f, s);
    forall c: nat | OnRing(steps, x, c) ensures c < bound {
      LeadsThrough(steps, f, x, c);
      assert c in s;
    }
  }
}

/** When an expansion reports recursion: exactly when something it reaches is active or leads back to itself. */
module ReferenceCycles {
  import opened Bytes
  import opened References
  import opened Rings

  /** Links lead from the schema back to it, without a reference to an active schema. */
  ghost predicate OnCycle(graph: Graph, active: set<Location>, l: Location) {
    l in graph && forall s: iset<Location> | Closed(graph, active, s) && LinksLead(graph, active, l, s) :: l in s
  }

  lemma WiderActiveCutsCycles(graph: Graph, active: set<Location>, wider: set<Location>, l: Location)
    requires active <= wider && OnCycle(graph, wider, l)
    ensures OnCycle(graph, active, l)
  {
    forall s: iset<Location> | Closed(graph, active, s) && LinksLead(graph, active, l, s) ensures l in s {
      forall m | m in s && m in graph ensures LinksLead(graph, wider, m, s) {
        assert LinksLead(graph, active, m, s);
      }
    }
  }

  /** The schema whose branch this is: being expanded, here or outside, or on no cycle. */
  ghost predicate OriginSettled(graph: Graph, active: set<Location>, path: seq<Location>, m: Membership) {
    m.branch.None? || m.origin in active || m.origin in path || !OnCycle(graph, active, m.origin)
  }

  ghost predicate ItemSettled(graph: Graph, active: set<Location>, item: Located) {
    forall m | m in item.memberships :: OriginSettled(graph, active, item.path, m)
  }

  ghost predicate OriginsSettled(graph: Graph, active: set<Location>, items: seq<Located>) {
    forall item | item in items :: ItemSettled(graph, active, item)
  }

  // ------------------------------------------------------------------ how a child comes about

  ghost predicate ByReference(graph: Graph, active: set<Location>, item: Located, child: Located)
    requires item.location in graph
  {
    && graph[item.location].reference == Some(To(child.location))
    && child.location !in active && child.location !in item.path
    && child == Located(child.location, item.memberships, item.path + [child.location])
  }

  ghost predicate ByBranch(branches: seq<Link>, item: Located, child: Located, index: nat) {
    index < |branches| && branches[index] == To(child.location) && child == BranchItem(item, child.location, index)
  }

  lemma {:induction false} BranchItemsAreLinked(branches: seq<Link>, item: Located, child: Located) returns (index: nat)
    requires child in BranchItems(item, branches)
    ensures ByBranch(branches, item, child, index)
    decreases |branches|
  {
    var last := |branches| - 1;
    if branches[last].To? && child == BranchItem(item, branches[last].target, last) {
      index := last;
    } else {
      index := BranchItemsAreLinked(branches[..last], item, child);
    }
  }

  ghost predicate LinkedTo(graph: Graph, active: set<Location>, item: Located, child: Located)
    requires item.location in graph
  {
    || ByReference(graph, active, item, child)
    || exists index: nat :: ByBranch(Branches(graph, item.location), item, child, index)
  }

  lemma ChildIsLinked(graph: Graph, active: set<Location>, item: Located, child: Located)
    requires item.location in graph && child in Children(graph, active, item)
    ensures LinkedTo(graph, active, item, child)
  {
    hide BranchItems;
    if child in BranchItems(item, Branches(graph, item.location)) {
      var index := BranchItemsAreLinked(Branches(graph, item.location), item, child);
    }
  }

  /** Children stay on the path and in the conjunctions of their parent, and their origins are settled with its own. */
  lemma ChildInherits(graph: Graph, active: set<Location>, item: Located, child: Located)
    requires item.location in graph && child in Children(graph, active, item)
    ensures forall p | p in item.path :: p in child.path
    ensures forall m | m in item.memberships :: m in child.memberships
    ensures item.location in item.path && ItemSettled(graph, active, item) ==> ItemSettled(graph, active, child)
  {
    ChildIsLinked(graph, active, item, child);
    hide Children, OnCycle;
  }

  lemma PoppedIsSettled(graph: Graph, active: set<Location>, item: Located)
    requires item.location in graph && ItemSettled(graph, active, item)
    ensures ItemSettled(graph, active, Popped(graph, item))
  {
    hide OnCycle;
  }

  // ---------------------------------------------------------------------- depth-first order

  /** The key under which the loop looks a schema up when it takes it from the worklist. */
  ghost function VisitKey(graph: Graph, item: Located): (Location, set<Membership>) {
    if item.location in graph then Popped(graph, item).Key() else item.Key()
  }

  ghost predicate Met(expanded: seq<Located>, key: (Location, set<Membership>)) {
    exists e :: e in expanded && e.Key() == key
  }

  ghost predicate Awaited(graph: Graph, rest: seq<Located>, key: (Location, set<Membership>)) {
    exists r :: r in rest && VisitKey(graph, r) == key
  }

  /** The schema was expanded below the top one, and what it added is expanded already or still waits. */
  ghost predicate Under(graph: Graph, active: set<Location>, top: Location, item: Located, done: seq<Located>,
                        rest: seq<Located>) {
    && top in item.path && item.location in graph
    && forall c | c in Children(graph, active, item) ::
         Met(done, VisitKey(graph, c)) || Awaited(graph, rest, VisitKey(graph, c))
  }

  /** The schemas expanded from this one on up to the end, and those that wait, all come from it. */
  ghost predicate Covers(graph: Graph, active: set<Location>, expanded: seq<Located>, e: nat, end: nat,
                         rest: seq<Located>)
    requires e < end <= |expanded|
  {
    && (forall r | r in rest :: expanded[e].location in r.path)
    && forall x | e <= x < end :: Under(graph, active, expanded[e].location, expanded[x], expanded[..end], rest)
  }

  /** The expansion of this schema is not over: the top of the worklist comes from it. */
  ghost predicate StillOpen(graph: Graph, active: set<Location>, pending: seq<Located>, expanded: seq<Located>, e: nat)
    requires e < |expanded|
  {
    exists h: nat :: h <= |pending| && Covers(graph, active, expanded, e, |expanded|, pending[h..])
  }

  /** The expansion of this schema was over before anything else was taken from the worklist. */
  ghost predicate Shut(graph: Graph, active: set<Location>, expanded: seq<Located>, e: nat)
    requires e < |expanded|
  {
    exists end: nat :: e < end <= |expanded| && Covers(graph, active, expanded, e, end, [])
  }

  ghost predicate DepthFirst(graph: Graph, active: set<Location>, pending: seq<Located>, expanded: seq<Located>) {
    forall e: nat | e < |expanded| :: StillOpen(graph, active, pending, expanded, e) || Shut(graph, active, expanded, e)
  }

  /** An open expansion with nothing of it waiting any more is over. */
  lemma OpenOrShut(graph: Graph, active: set<Location>, pending: seq<Located>, expanded: seq<Located>, e: nat)
    returns (h: nat)
    requires e < |expanded| && StillOpen(graph, active, pending, expanded, e)
    ensures || Shut(graph, active, expanded, e)
            || (h < |pending| && Covers(graph, active, expanded, e, |expanded|, pending[h..]))
  {
    hide Covers;
    h :| h <= |pending| && Covers(graph, active, expanded, e, |expanded|, pending[h..]);
    if h == |pending| {
      assert pending[h..] == [];
    }
  }

  lemma UnderLater(graph: Graph, active: set<Location>, top: Location, item: Located, done: seq<Located>,
                   rest: seq<Located>, later: seq<Located>, left: seq<Located>)
    requires Under(graph, active, top, item, done, rest)
    requires forall e | e in done :: e in later
    requires forall r | r in rest :: r in left || Met(later, VisitKey(graph, r))
    ensures Under(graph, active, top, item, later, left)
  {
    hide Children, VisitKey, Located.Key;
    forall c | c in Children(graph, active, item)
      ensures Met(later, VisitKey(graph, c)) || Awaited(graph, left, VisitKey(graph, c))
    {
      if !Met(done, VisitKey(graph, c)) {
        var r :| r in rest && VisitKey(graph, r) == VisitKey(graph, c);
      }
    }
  }

  lemma OpensAt(graph: Graph, active: set<Location>, pending: seq<Located>, expanded: seq<Located>, e: nat, h: nat)
    requires e < |expanded| && h <= |pending| && Covers(graph, active, expanded, e, |expanded|, pending[h..])
    ensures StillOpen(graph, active, pending, expanded, e)
  {
  }

  lemma SkippedIsOpenOrShut(graph: Graph, active: set<Location>, front: seq<Located>, item: Located,
                            expanded: seq<Located>, e: nat)
    requires e < |expanded| && Met(expanded, VisitKey(graph, item))
    requires StillOpen(graph, active, front + [item], expanded, e)
    ensures StillOpen(graph, active, front, expanded, e) || Shut(graph, active, expanded, e)
  {
    hide Under, Met, VisitKey, StillOpen, Shut;
    var h := OpenOrShut(graph, active, front + [item], expanded, e);
    if !Shut(graph, active, expanded, e) {
      var rest, left := (front + [item])[h..], front[h..];
      assert rest == left + [item] && expanded[..|expanded|] == expanded;
      forall x | e <= x < |expanded|
        ensures Under(graph, active, expanded[e].location, expanded[x], expanded[..|expanded|], left)
      {
        UnderLater(graph, active, expanded[e].location, expanded[x], expanded[..|expanded|], rest,
                   expanded[..|expanded|], left);
      }
      assert Covers(graph, active, expanded, e, |expanded|, left);
      OpensAt(graph, active, front, expanded, e, h);
    }
  }

  lemma SkipKeepsDepthFirst(graph: Graph, active: set<Location>, front: seq<Located>, item: Located,
                            expanded: seq<Located>)
    requires DepthFirst(graph, active, front + [item], expanded) && Met(expanded, VisitKey(graph, item))
    ensures DepthFirst(graph, active, front, expanded)
  {
    hide StillOpen, Shut, Met, VisitKey;
    forall e: nat | e < |expanded|
      ensures StillOpen(graph, active, front, expanded, e) || Shut(graph, active, expanded, e)
    {
      if !Shut(graph, active, expanded, e) {
        SkippedIsOpenOrShut(graph, active, front, item, expanded, e);
      }
    }
  }

  lemma ShutStaysShut(graph: Graph, active: set<Location>, expanded: seq<Located>, item: Located, e: nat)
    requires e < |expanded| && Shut(graph, active, expanded, e)
    ensures Shut(graph, active, expanded + [item], e)
  {
    hide Under;
    var end: nat :| e < end <= |expanded| && Covers(graph, active, expanded, e, end, []);
    assert (expanded + [item])[..end] == expanded[..end];
    assert Covers(graph, active, expanded + [item], e, end, []);
  }

  /** A schema just expanded is under itself, and under everything the worklist item was under. */
  lemma NewIsUnder(graph: Graph, active: set<Location>, top: Location, popped: Located, expanded: seq<Located>,
                   rest: seq<Located>)
    requires popped.location in graph && top in popped.path
    ensures Under(graph, active, top, popped, expanded, rest + Children(graph, active, popped))
    ensures forall c | c in Children(graph, active, popped) :: top in c.path
  {
    hide VisitKey, Children;
    var children := Children(graph, active, popped);
    forall c | c in children ensures Awaited(graph, rest + children, VisitKey(graph, c)) && top in c.path {
      ChildInherits(graph, active, popped, c);
      assert c in rest + children;
    }
  }

  lemma AdvancedIsOpen(graph: Graph, active: set<Location>, front: seq<Located>, item: Located, expanded: seq<Located>,
                       e: nat, h: nat)
    requires e < |expanded| && item.location in graph && h <= |front|
    requires Covers(graph, active, expanded, e, |expanded|, front[h..] + [item])
    ensures var popped := Popped(graph, item);
            popped.location == item.location &&
            Covers(graph, active, expanded + [popped], e, |expanded| + 1, front[h..] + Children(graph, active, popped))
  {
    var popped := Popped(graph, item);
    assert popped.location == item.location && popped.path == item.path && popped.Key() == VisitKey(graph, item);
    hide Under, Children, Popped, VisitKey, Located.Key;
    var now, rest, left := expanded + [popped], front[h..] + [item], front[h..] + Children(graph, active, popped);
    var top := expanded[e].location;
    assert item in rest && popped in now;
    NewIsUnder(graph, active, top, popped, now, front[h..]);
    assert expanded[..|expanded|] == expanded && now[..|expanded| + 1] == now;
    forall x | e <= x < |expanded| ensures Under(graph, active, top, expanded[x], now, left) {
      assert Under(graph, active, top, expanded[x], expanded[..|expanded|], rest);
      UnderLater(graph, active, top, expanded[x], expanded, rest, now, left);
    }
  }

  lemma AdvancedIsOpenOrShut(graph: Graph, active: set<Location>, front: seq<Located>, item: Located,
                             expanded: seq<Located>, e: nat)
    requires e < |expanded| && item.location in graph
    requires StillOpen(graph, active, front + [item], expanded, e) || Shut(graph, active, expanded, e)
    ensures var popped := Popped(graph, item);
            popped.location == item.location &&
            (|| StillOpen(graph, active, front + Children(graph, active, popped), expanded + [popped], e)
             || Shut(graph, active, expanded + [popped], e))
  {
    var popped := Popped(graph, item);
    hide Covers, Children, Popped;
    if Shut(graph, active, expanded, e) {
      ShutStaysShut(graph, active, expanded, popped, e);
    } else {
      var h := OpenOrShut(graph, active, front + [item], expanded, e);
      assert (front + [item])[h..] == front[h..] + [item];
      AdvancedIsOpen(graph, active, front, item, expanded, e, h);
      assert (front + Children(graph, active, popped))[h..] == front[h..] + Children(graph, active, popped);
    }
  }

  lemma AdvanceKeepsDepthFirst(graph: Graph, active: set<Location>, front: seq<Located>, item: Located,
                               expanded: seq<Located>)
    requires DepthFirst(graph, active, front + [item], expanded)
    requires item.location in graph && item.location in item.path
    ensures DepthFirst(graph, active, front + Children(graph, active, Popped(graph, item)),
                       expanded + [Popped(graph, item)])
  {
    var popped := Popped(graph, item);
    var now, children := expanded + [popped], Children(graph, active, popped);
    assert popped.location == item.location && popped.path == item.path;
    hide Under, StillOpen, Shut, Children, Popped;
    forall e: nat | e < |expanded|
      ensures StillOpen(graph, active, front + children, now, e) || Shut(graph, active, now, e)
    {
      AdvancedIsOpenOrShut(graph, active, front, item, expanded, e);
    }
    OpensItself(graph, active, front, popped, expanded);
  }

  lemma OpensItself(graph: Graph, active: set<Location>, front: seq<Located>, popped: Located, expanded: seq<Located>)
    requires popped.location in graph && popped.location in popped.path
    ensures StillOpen(graph, active, front + Children(graph, active, popped), expanded + [popped], |expanded|)
  {
    var now, children := expanded + [popped], Children(graph, active, popped);
    hide Under, Children;
    NewIsUnder(graph, active, popped.location, popped, now, []);
    assert [] + children == children;
    assert (front + children)[|front|..] == children && now[..|expanded| + 1] == now;
    assert Covers(graph, active, now, |expanded|, |expanded| + 1, children);
  }

  lemma FinishedIsShut(graph: Graph, active: set<Location>, expanded: seq<Located>)
    requires DepthFirst(graph, active, [], expanded)
    ensures forall e: nat | e < |expanded| :: Shut(graph, active, expanded, e)
  {
    hide StillOpen, Shut;
    forall e: nat | e < |expanded| ensures Shut(graph, active, expanded, e) {
      if StillOpen(graph, active, [], expanded, e) {
        var h := OpenOrShut(graph, active, [], expanded, e);
      }
    }
  }

  // ------------------------------------------------------------- the rings of an expansion

  ghost function Conjunctions(item: Located): set<Membership> {
    set m | m in item.memberships
  }

  /** The loop, expanding the one schema, pushed something with the key of the other. */
  ghost predicate Stepping(graph: Graph, active: set<Location>, item: Located, next: Located) {
    item.location in graph && exists c :: c in Children(graph, active, item) && VisitKey(graph, c) == next.Key()
  }

  ghost function StepsOf(graph: Graph, active: set<Location>, expanded: seq<Located>): Steps {
    iset x: nat, y: nat | x < |expanded| && y < |expanded| && Stepping(graph, active, expanded[x], expanded[y]) :: (x, y)
  }

  ghost predicate PathIn(item: Located, known: iset<Location>) {
    forall p | p in item.path :: p in known
  }

  /** What holds of the expanded schemas when the worklist is empty. */
  ghost predicate Traversed(graph: Graph, active: set<Location>, expanded: seq<Located>) {
    && DistinctKeys(expanded) && OriginsSettled(graph, active, expanded)
    && (forall e | e in expanded :: e.Within(graph) && PathLeads(graph, active, e) && PathIn(e, Known(expanded)))
    && forall e: nat | e < |expanded| :: Shut(graph, active, expanded, e)
  }

  ghost predicate StepsByReference(graph: Graph, active: set<Location>, item: Located, next: Located)
    requires item.location in graph
  {
    && graph[item.location].reference == Some(To(next.location))
    && next.location !in active && next.location !in item.path
  }

  ghost predicate StepsByBranch(graph: Graph, item: Located, next: Located)
    requires item.location in graph
  {
    exists index: nat :: index < |Branches(graph, item.location)|
      && Branches(graph, item.location)[index] == To(next.location)
      && Membership(item.location, Some(index)) in Conjunctions(next)
  }

  lemma StepMeans(graph: Graph, active: set<Location>, item: Located, next: Located)
    requires Stepping(graph, active, item, next)
    ensures Conjunctions(item) <= Conjunctions(next)
    ensures StepsByReference(graph, active, item, next) || StepsByBranch(graph, item, next)
  {
    var c :| c in Children(graph, active, item) && VisitKey(graph, c) == next.Key();
    ChildInherits(graph, active, item, c);
    ChildIsLinked(graph, active, item, c);
    hide Children;
    VisitKeeps(graph, c);
    assert next.Key() == (next.location, Conjunctions(next));
    if !ByReference(graph, active, item, c) {
      var index: nat :| ByBranch(Branches(graph, item.location), item, c, index);
      assert Membership(item.location, Some(index)) in c.memberships;
    }
  }

  lemma VisitKeeps(graph: Graph, item: Located)
    ensures VisitKey(graph, item).0 == item.location
    ensures forall m | m in item.memberships :: m in VisitKey(graph, item).1
  {
  }

  lemma LeadsKeeps(graph: Graph, active: set<Location>, expanded: seq<Located>, x: nat, y: nat)
    requires Leads(StepsOf(graph, active, expanded), x, y)
    ensures x < |expanded| && y < |expanded| && Conjunctions(expanded[x]) <= Conjunctions(expanded[y])
  {
    var steps := StepsOf(graph, active, expanded);
    hide Conjunctions, Stepping, Children;
    var s := iset z: nat | x < |expanded| && z < |expanded| && Conjunctions(expanded[x]) <= Conjunctions(expanded[z]);
    forall z, w | (z, w) in steps && (z in s || z == x) ensures w in s {
      StepMeans(graph, active, expanded[z], expanded[w]);
    }
    assert Stays(steps, s) && Opens(steps, x, s);
  }

  lemma RingIsPlaced(graph: Graph, active: set<Location>, expanded: seq<Located>, x: nat)
    requires Leads(StepsOf(graph, active, expanded), x, x)
    ensures x < |expanded| && expanded[x].location in graph
  {
    hide Children;
    LeadsKeeps(graph, active, expanded, x, x);
    var steps := StepsOf(graph, active, expanded);
    var nothing: iset<nat> := iset{};
    assert Stays(steps, nothing);
    assert expanded[x].location !in graph ==> Opens(steps, x, nothing);
  }

  /** A ring of steps is a cycle of links. */
  lemma RingIsCycle(graph: Graph, active: set<Location>, expanded: seq<Located>, x: nat)
    requires Leads(StepsOf(graph, active, expanded), x, x)
    ensures x < |expanded| && OnCycle(graph, active, expanded[x].location)
  {
    var steps := StepsOf(graph, active, expanded);
    LeadsKeeps(graph, active, expanded, x, x);
    RingIsPlaced(graph, active, expanded, x);
    hide Stepping, Conjunctions, LinksLead;
    forall s: iset<Location> | Closed(graph, active, s) && LinksLead(graph, active, expanded[x].location, s)
      ensures expanded[x].location in s
    {
      var t := iset y: nat | y < |expanded| && expanded[y].location in s;
      forall y, z | (y, z) in steps && (y in t || y == x) ensures z in t {
        assert expanded[y].location in graph by {
          StepIsPlaced(graph, active, expanded[y], expanded[z]);
        }
        StepFollowsLinks(graph, active, expanded[y], expanded[z], s);
      }
      assert Stays(steps, t) && Opens(steps, x, t);
    }
  }

  lemma StepIsPlaced(graph: Graph, active: set<Location>, item: Located, next: Located)
    requires Stepping(graph, active, item, next)
    ensures item.location in graph
  {
  }

  lemma StepFollowsLinks(graph: Graph, active: set<Location>, item: Located, next: Located, s: iset<Location>)
    requires Stepping(graph, active, item, next)
    requires item.location in graph && LinksLead(graph, active, item.location, s)
    ensures next.location in s
  {
    StepMeans(graph, active, item, next);
  }

  lemma RingShares(graph: Graph, active: set<Location>, expanded: seq<Located>, x: nat, c: nat)
    requires OnRing(StepsOf(graph, active, expanded), x, c)
    ensures x < |expanded| && c < |expanded| && Conjunctions(expanded[c]) == Conjunctions(expanded[x])
  {
    LeadsKeeps(graph, active, expanded, x, c);
    LeadsKeeps(graph, active, expanded, c, x);
  }

  lemma StepsHaveEnds(graph: Graph, active: set<Location>, expanded: seq<Located>, x: nat, y: nat)
    requires (x, y) in StepsOf(graph, active, expanded)
    ensures x < |expanded| && y < |expanded| && Stepping(graph, active, expanded[x], expanded[y])
  {
  }

  /** On a ring nothing is a branch of anything on the ring: the largest such schema would still be on its path. */
  lemma {:induction false} OriginsAreOffRings(graph: Graph, active: set<Location>, expanded: seq<Located>, x: nat,
                                              z: nat, bound: nat)
    requires WellFormed(graph) && Traversed(graph, active, expanded)
    requires Leads(StepsOf(graph, active, expanded), x, x) && OnRing(StepsOf(graph, active, expanded), x, z)
    requires z < |expanded| && forall e | e in expanded :: e.location in graph && graph[e.location].size <= bound
    ensures x < |expanded| &&
            forall index: nat :: Membership(expanded[z].location, Some(index)) !in Conjunctions(expanded[x])
    decreases bound - graph[expanded[z].location].size
  {
    var steps := StepsOf(graph, active, expanded);
    hide StepsOf, Leads, OnCycle, Shut, PathLeads, Stepping;
    var q := RingStep(steps, x, z);
    StepsHaveEnds(graph, active, expanded, q, z);
    RingShares(graph, active, expanded, x, q);
    RingShares(graph, active, expanded, x, z);
    LeadsThrough(steps, z, x, z);
    RingIsCycle(graph, active, expanded, z);
    StepMeans(graph, active, expanded[q], expanded[z]);
    assert expanded[q] in expanded && ItemSettled(graph, active, expanded[q]);
    if StepsByBranch(graph, expanded[q], expanded[z]) {
      OriginsAreOffRings(graph, active, expanded, x, q, bound);
    }
  }

  ghost function LargestSize(graph: Graph, expanded: seq<Located>): (bound: nat)
    requires forall e | e in expanded :: e.location in graph
    ensures forall e | e in expanded :: graph[e.location].size <= bound
  {
    if expanded == [] then 0
    else
      var last, rest := expanded[|expanded| - 1], LargestSize(graph, expanded[..|expanded| - 1]);
      assert expanded == expanded[..|expanded| - 1] + [last];
      if graph[last.location].size > rest then graph[last.location].size else rest
  }

  /** What the schema added was expanded before its expansion was over. */
  lemma ChildIsStepped(graph: Graph, active: set<Location>, expanded: seq<Located>, y: nat, end: nat, child: Located)
    returns (z: nat)
    requires y < end <= |expanded| && Under(graph, active, expanded[y].location, expanded[y], expanded[..end], [])
    requires child in Children(graph, active, expanded[y])
    ensures z < end && (y, z) in StepsOf(graph, active, expanded) && expanded[z].location == child.location
    ensures expanded[z].Key() == VisitKey(graph, child)
  {
    VisitKeeps(graph, child);
    hide Children, VisitKey;
    assert Met(expanded[..end], VisitKey(graph, child));
    var e :| e in expanded[..end] && e.Key() == VisitKey(graph, child);
    z :| 0 <= z < end && expanded[..end][z] == e;
    assert expanded[z] == e;
  }

  /** Steps from schemas covered up to an end stay below that end. */
  lemma StepsStayBelow(graph: Graph, active: set<Location>, expanded: seq<Located>, top: Location, end: nat, y: nat,
                       z: nat)
    requires DistinctKeys(expanded) && (y, z) in StepsOf(graph, active, expanded) && y < end <= |expanded|
    requires Under(graph, active, top, expanded[y], expanded[..end], [])
    ensures z < end
  {
    StepsHaveEnds(graph, active, expanded, y, z);
    hide VisitKey, Children, Located.Key;
    var c :| c in Children(graph, active, expanded[y]) && VisitKey(graph, c) == expanded[z].Key();
    assert Met(expanded[..end], VisitKey(graph, c));
    var e :| e in expanded[..end] && e.Key() == VisitKey(graph, c);
    var i :| 0 <= i < end && expanded[..end][i] == e;
    assert expanded[i] == e;
  }

  /** A ring would be cut: its first schema is on the path of whatever steps to it. */
  lemma NoRings(graph: Graph, active: set<Location>, expanded: seq<Located>, x: nat)
    requires WellFormed(graph) && Traversed(graph, active, expanded)
    ensures !Leads(StepsOf(graph, active, expanded), x, x)
  {
    var steps := StepsOf(graph, active, expanded);
    if Leads(steps, x, x) {
      var f := FirstOnRing(steps, x, x);
      RingShares(graph, active, expanded, x, f);
      var end := EndOf(graph, active, expanded, f);
      var p := RingStep(steps, x, f);
      RingIsCovered(graph, active, expanded, x, f, end, p);
      StepsHaveEnds(graph, active, expanded, p, f);
      StepMeans(graph, active, expanded[p], expanded[f]);
      OriginsAreOffRings(graph, active, expanded, x, p, LargestSize(graph, expanded));
    }
  }

  lemma EndOf(graph: Graph, active: set<Location>, expanded: seq<Located>, f: nat) returns (end: nat)
    requires f < |expanded| && Traversed(graph, active, expanded)
    ensures f < end <= |expanded| && Covers(graph, active, expanded, f, end, [])
  {
    assert Shut(graph, active, expanded, f);
    end :| f < end <= |expanded| && Covers(graph, active, expanded, f, end, []);
  }

  lemma RingIsCovered(graph: Graph, active: set<Location>, expanded: seq<Located>, x: nat, f: nat, end: nat, p: nat)
    requires DistinctKeys(expanded) && f < end <= |expanded| && Covers(graph, active, expanded, f, end, [])
    requires OnRing(StepsOf(graph, active, expanded), x, f) && OnRing(StepsOf(graph, active, expanded), x, p)
    requires forall d: nat | OnRing(StepsOf(graph, active, expanded), x, d) :: f <= d
    ensures p < end && expanded[f].location in expanded[p].path
  {
    var steps := StepsOf(graph, active, expanded);
    hide StepsOf, OnRing;
    forall y: nat, z: nat | (y, z) in steps && f <= y < end ensures z < end {
      StepsStayBelow(graph, active, expanded, expanded[f].location, end, y, z);
    }
    RingStaysBelow(steps, x, f, end);
    assert Under(graph, active, expanded[f].location, expanded[p], expanded[..end], []);
  }

  lemma {:induction false} LargestAt(expanded: seq<Located>, l: Location, n: nat) returns (x: nat)
    requires n <= |expanded| && exists y: nat :: y < n && expanded[y].location == l
    ensures x < n && expanded[x].location == l
    ensures forall y: nat | y < n && expanded[y].location == l :: |Conjunctions(expanded[y])| <= |Conjunctions(expanded[x])|
    decreases n
  {
    hide Conjunctions;
    if rest: nat :| rest < n - 1 && expanded[rest].location == l {
      x := LargestAt(expanded, l, n - 1);
      if expanded[n - 1].location == l && |Conjunctions(expanded[n - 1])| > |Conjunctions(expanded[x])| {
        x := n - 1;
      }
    } else {
      x := n - 1;
    }
  }

  /** The locations that the steps from one schema lead to. */
  ghost function LedTo(graph: Graph, active: set<Location>, expanded: seq<Located>, x: nat): iset<Location> {
    iset z: nat | z < |expanded| && Leads(StepsOf(graph, active, expanded), x, z) :: expanded[z].location
  }

  lemma ChildIsLedTo(graph: Graph, active: set<Location>, expanded: seq<Located>, x: nat, y: nat, child: Located)
    requires Traversed(graph, active, expanded) && y < |expanded|
    requires y == x || Leads(StepsOf(graph, active, expanded), x, y)
    requires expanded[y].location in graph && child in Children(graph, active, expanded[y])
    ensures child.location in LedTo(graph, active, expanded, x)
  {
    hide Children;
    var end := EndOf(graph, active, expanded, y);
    var z := ChildIsStepped(graph, active, expanded, y, end, child);
    hide StepsOf;
    if y != x {
      LeadsThrough(StepsOf(graph, active, expanded), x, y, z);
    }
  }

  lemma UncutLinksLead(graph: Graph, active: set<Location>, expanded: seq<Located>, x: nat, y: nat)
    requires WellFormed(graph) && Traversed(graph, active, expanded) && y < |expanded|
    requires y == x || Leads(StepsOf(graph, active, expanded), x, y)
    requires expanded[y].location in graph && !Cut(graph, active, expanded[y])
    ensures LinksLead(graph, active, expanded[y].location, LedTo(graph, active, expanded, x))
  {
    var item := expanded[y];
    assert item in expanded;
    ChildrenLead(graph, active, item);
    hide Children, LedTo, Traversed, StepsOf;
    forall l | l in Known(Children(graph, active, item)) ensures l in LedTo(graph, active, expanded, x) {
      var child :| child in Children(graph, active, item) && child.location == l;
      ChildIsLedTo(graph, active, expanded, x, y, child);
    }
  }

  /** Where no reference is cut, nothing expanded is on a cycle. */
  lemma UncutIsAcyclic(graph: Graph, active: set<Location>, expanded: seq<Located>, l: Location)
    requires WellFormed(graph) && Traversed(graph, active, expanded) && l in Known(expanded)
    requires forall e | e in expanded :: e.location in graph && !Cut(graph, active, e)
    ensures !OnCycle(graph, active, l)
  {
    if OnCycle(graph, active, l) {
      var e :| e in expanded && e.location == l;
      var x := LargestAt(expanded, l, |expanded|);
      NoRings(graph, active, expanded, x);
      UncutLinksClose(graph, active, expanded, x);
      UncutLinksLead(graph, active, expanded, x, x);
      LedBack(graph, active, expanded, x);
    }
  }

  lemma UncutLinksClose(graph: Graph, active: set<Location>, expanded: seq<Located>, x: nat)
    requires WellFormed(graph) && Traversed(graph, active, expanded)
    requires forall e | e in expanded :: e.location in graph && !Cut(graph, active, e)
    ensures Closed(graph, active, LedTo(graph, active, expanded, x))
  {
    hide Traversed, StepsOf, Leads, LinksLead;
    forall l | l in LedTo(graph, active, expanded, x) && l in graph
      ensures LinksLead(graph, active, l, LedTo(graph, active, expanded, x))
    {
      var z: nat :| z < |expanded| && Leads(StepsOf(graph, active, expanded), x, z) && expanded[z].location == l;
      UncutLinksLead(graph, active, expanded, x, z);
    }
  }

  /** A schema with the most conjunctions at its location that leads to its location leads to itself. */
  lemma LedBack(graph: Graph, active: set<Location>, expanded: seq<Located>, x: nat)
    requires DistinctKeys(expanded) && x < |expanded|
    requires forall y: nat | y < |expanded| && expanded[y].location == expanded[x].location ::
               |Conjunctions(expanded[y])| <= |Conjunctions(expanded[x])|
    requires expanded[x].location in LedTo(graph, active, expanded, x)
    ensures Leads(StepsOf(graph, active, expanded), x, x)
  {
    hide StepsOf, Leads;
    var z: nat :| z < |expanded| && Leads(StepsOf(graph, active, expanded), x, z)
                  && expanded[z].location == expanded[x].location;
    LeadsKeeps(graph, active, expanded, x, z);
    LargerSubset(Conjunctions(expanded[x]), Conjunctions(expanded[z]));
    assert expanded[z].Key() == expanded[x].Key();
  }

  lemma LargerSubset<T>(a: set<T>, b: set<T>)
    requires a <= b && |b| <= |a|
    ensures a == b
  {
    assert b == a + (b - a);
  }

  // --------------------------------------------------------------------------- the answer

  /** Recursion is reported exactly when something reached refers to an active schema or leads back to itself. */
  ghost predicate ReportsRecursion(graph: Graph, active: set<Location>, starts: iset<Location>, e: Expansion) {
    e.recursive != {} <==>
      exists l :: Reached(graph, active, starts, l) && (TargetIsActive(graph, active, l) || OnCycle(graph, active, l))
  }

  lemma RecursiveIsOnCycle(graph: Graph, active: set<Location>, l: Location)
    requires TrulyRecursive(graph, active, l) && !TargetIsActive(graph, active, l)
    ensures OnCycle(graph, active, l)
  {
    forall s: iset<Location> | Closed(graph, active, s) && LinksLead(graph, active, l, s) ensures l in s {
      assert iset{graph[l].reference.value.target} <= s;
    }
  }

  /** Branches of whatever is expanded here or active outside, or of what is on no cycle. */
  ghost predicate KnownOrigins(graph: Graph, active: set<Location>, e: Expansion) {
    forall d | d in e.schemas :: forall m | m in d.memberships ::
      m.branch.None? || m.origin in active || m.origin in Known(e.schemas) || !OnCycle(graph, active, m.origin)
  }

  lemma RecursionIsReported(graph: Graph, active: set<Location>, starts: iset<Location>, e: Expansion)
    requires WellFormed(graph) && Traversed(graph, active, e.schemas) && IsExpansion(graph, active, starts, e)
    requires ReportsCuts(graph, active, e.schemas, e.recursive)
    ensures ReportsRecursion(graph, active, starts, e)
  {
    hide WellFormed, OnCycle, Cut, Reached;
    if l :| l in e.recursive {
      if !TargetIsActive(graph, active, l) {
        RecursiveIsOnCycle(graph, active, l);
      }
      assert l in Known(e.schemas);
    } else {
      forall l | Reached(graph, active, starts, l)
        ensures !TargetIsActive(graph, active, l) && !OnCycle(graph, active, l)
      {
        UncutIsAcyclic(graph, active, e.schemas, l);
      }
    }
  }

  lemma OriginsAreKnown(graph: Graph, active: set<Location>, e: Expansion)
    requires Traversed(graph, active, e.schemas)
    ensures KnownOrigins(graph, active, e)
  {
    hide OnCycle, Shut, PathLeads, Known;
  }

  /** The schemas for a property or for the items carry the conjunctions of a schema around them. */
  ghost predicate Enclosed(expanded: seq<Located>, children: seq<Located>) {
    forall c | c in children :: exists d :: d in expanded && d.memberships == c.memberships
  }

  /**
   * Expansion after expansion, origins stay settled: below an expansion without recursive findings, and below any
   * whose schemas all become active.
   */
  lemma EnclosedStaysSettled(graph: Graph, active: set<Location>, starts: iset<Location>, e: Expansion,
                             wider: set<Location>, children: seq<Located>)
    requires IsExpansion(graph, active, starts, e) && ReportsRecursion(graph, active, starts, e)
    requires KnownOrigins(graph, active, e) && Enclosed(e.schemas, children)
    requires active <= wider && (e.recursive == {} || forall l | l in Known(e.schemas) :: l in wider)
    ensures OriginsSettled(graph, wider, children)
  {
    hide OnCycle, Reached, TargetIsActive, TrulyRecursive, DistinctKeys;
    forall c, m | c in children && m in c.memberships ensures OriginSettled(graph, wider, c.path, m) {
      var d :| d in e.schemas && d.memberships == c.memberships;
      if OnCycle(graph, wider, m.origin) {
        WiderActiveCutsCycles(graph, active, wider, m.origin);
      }
    }
  }
}
