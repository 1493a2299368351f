/** The worklist loop that expands references. */
module ReferenceExpansion {
  import opened Bytes
  import opened Conjunctions
  import opened ReferenceCycles
  import opened References
  import opened Scanner

  /** Pushes the branches of an `allOf`, up to the first that cannot be normalised. */
  method PushBranches(item: Located, branches: seq<Link>) returns (resolved: bool, pushed: seq<Located>, used: set<Bytes>)
    ensures resolved <==> forall i | 0 <= i < |branches| :: branches[i].To?
    ensures resolved ==> pushed == BranchItems(item, branches)
    ensures resolved ==> forall resource :: resource in used <==> BranchesLeadInto(branches, resource)
  {
    pushed, used := [], {};
    for index := 0 to |branches|
      invariant pushed == BranchItems(item, branches[..index])
      invariant forall i | 0 <= i < index :: branches[i].To?
      invariant forall resource :: resource in used <==> BranchesLeadInto(branches[..index], resource)
    {
      assert branches[..index + 1][..index] == branches[..index];
      if branches[index].Unresolved? {
        return false, pushed, used;
      }
      forall resource
        ensures BranchesLeadInto(branches[..index + 1], resource)
           <==> BranchesLeadInto(branches[..index], resource) || resource == branches[index].target.resource
      {
        assert branches[..index + 1][index] == branches[index];
        assert forall i | 0 <= i < index :: branches[..index + 1][i] == branches[..index][i];
      }
      pushed := pushed + [BranchItem(item, branches[index].target, index)];
      used := used + {branches[index].target.resource};
    }
    assert branches[..|branches|] == branches;
    return true, pushed, used;
  }

  /** One schema: what it pushes, whether its reference is cut, and the resources its links lead into. */
  method ExpandOne(graph: Graph, active: set<Location>, item: Located)
    returns (resolved: bool, children: seq<Located>, cut: bool, used: set<Bytes>)
    requires item.location in graph
    ensures resolved <==> Resolves(graph, item.location)
    ensures resolved ==> children == Children(graph, active, item) && cut == Cut(graph, active, item)
    ensures resolved ==> forall resource :: resource in used <==> LeadsInto(graph, item.location, resource)
  {
    children, cut, used := [], false, {};
    var schema := graph[item.location];
    assert schema.allOf.Some? ==> schema.allOf.value == Branches(graph, item.location);
    if schema.reference.Some? {
      if schema.reference.value.Unresolved? {
        return false, children, cut, used;
      }
      var target := schema.reference.value.target;
      used := {target.resource};
      if target in active || target in item.path {
        cut := true;
      } else {
        children := [Located(target, item.memberships, item.path + [target])];
      }
    }
    resolved := true;
    if schema.allOf.Some? {
      var pushed, branchResources;
      resolved, pushed, branchResources := PushBranches(item, schema.allOf.value);
      children, used := children + pushed, used + branchResources;
    }
  }

  /** The local state of the loop: the worklist, and what it has recorded. */
  datatype Walk = Walk(
    pending: seq<Located>, expanded: seq<Located>, seen: set<(Location, set<Membership>)>, recursive: set<Location>,
    used: set<Bytes>)

  ghost predicate Recorded(graph: Graph, active: set<Location>, usedBefore: set<Bytes>, w: Walk) {
    && SeenIs(w.seen, w.expanded) && ReportsCuts(graph, active, w.expanded, w.recursive)
    && UsesLinked(graph, usedBefore, w.expanded, w.used)
  }

  ghost predicate OnTrack(graph: Graph, active: set<Location>, starts: iset<Location>, usedBefore: set<Bytes>, w: Walk) {
    && AllWithin(graph, w.pending) && Progress(graph, active, starts, w.pending, w.expanded)
    && Recorded(graph, active, usedBefore, w)
  }

  /** The order of the worklist, and that origins stay settled when they were settled for the starts. */
  ghost predicate Ordered(graph: Graph, active: set<Location>, settled: bool, w: Walk) {
    && DepthFirst(graph, active, w.pending, w.expanded)
    && (settled ==> OriginsSettled(graph, active, w.pending) && OriginsSettled(graph, active, w.expanded))
  }

  function Skipped(w: Walk): Walk
    requires w.pending != []
  {
    w.(pending := w.pending[..|w.pending| - 1])
  }

  function Advanced(w: Walk, item: Located, children: seq<Located>, cut: bool, linked: set<Bytes>): Walk
    requires w.pending != []
  {
    Walk(w.pending[..|w.pending| - 1] + children, w.expanded + [item], w.seen + {item.Key()},
         if cut then w.recursive + {item.location} else w.recursive, w.used + linked)
  }

  lemma SkippingStaysOnTrack(graph: Graph, active: set<Location>, starts: iset<Location>, usedBefore: set<Bytes>,
                             w: Walk, item: Located)
    requires OnTrack(graph, active, starts, usedBefore, w) && w.pending != [] && item == w.pending[|w.pending| - 1]
    requires item.location in graph && Popped(graph, item).Key() in w.seen
    ensures OnTrack(graph, active, starts, usedBefore, Skipped(w))
  {
    assert w.pending == w.pending[..|w.pending| - 1] + [item];
    SeenIsKnown(w.seen, w.expanded, Popped(graph, item));
    SeenIsDropped(graph, active, starts, w.pending[..|w.pending| - 1], item, w.expanded);
  }

  lemma AdvancingStaysOnTrack(graph: Graph, active: set<Location>, starts: iset<Location>, usedBefore: set<Bytes>,
                              w: Walk, item: Located, linked: set<Bytes>)
    requires WellFormed(graph) && OnTrack(graph, active, starts, usedBefore, w)
    requires w.pending != [] && item == w.pending[|w.pending| - 1] && item.location in graph
    requires Popped(graph, item).Key() !in w.seen && Resolves(graph, item.location)
    requires forall resource :: resource in linked <==> LeadsInto(graph, item.location, resource)
    ensures Popped(graph, item).location == item.location
    ensures var popped := Popped(graph, item);
            OnTrack(graph, active, starts, usedBefore,
                    Advanced(w, popped, Children(graph, active, popped), Cut(graph, active, popped), linked))
  {
    var front, popped := w.pending[..|w.pending| - 1], Popped(graph, item);
    assert w.pending == front + [item] && popped.location == item.location;
    hide Progress, SeenIs, ReportsCuts, UsesLinked, Popped, Children, Cut, LeadsInto, Resolves, WellFormed, AllWithin;
    VisitPaid(graph, active, front, item);
    NewIsExpanded(graph, active, starts, front, item, w.expanded);
    SeenWithOneMore(w.seen, w.expanded, popped);
    CutsWithOneMore(graph, active, w.expanded, popped, w.recursive);
    UsesWithOneMore(graph, usedBefore, w.expanded, popped, w.used, linked);
  }

  lemma SkippingStaysOrdered(graph: Graph, active: set<Location>, settled: bool, w: Walk, item: Located)
    requires Ordered(graph, active, settled, w) && w.pending != [] && item == w.pending[|w.pending| - 1]
    requires item.location in graph && SeenIs(w.seen, w.expanded) && Popped(graph, item).Key() in w.seen
    ensures Ordered(graph, active, settled, Skipped(w))
  {
    var front := w.pending[..|w.pending| - 1];
    assert w.pending == front + [item] && Met(w.expanded, VisitKey(graph, item));
    hide ItemSettled, DepthFirst, Popped, Met, VisitKey;
    SkipKeepsDepthFirst(graph, active, front, item, w.expanded);
  }

  lemma AdvancingStaysOrdered(graph: Graph, active: set<Location>, settled: bool, w: Walk, item: Located,
                              linked: set<Bytes>)
    requires Ordered(graph, active, settled, w) && w.pending != [] && item == w.pending[|w.pending| - 1]
    requires item.location in graph && item.location in item.path
    ensures Popped(graph, item).location == item.location
    ensures var popped := Popped(graph, item);
            Ordered(graph, active, settled,
                    Advanced(w, popped, Children(graph, active, popped), Cut(graph, active, popped), linked))
  {
    var front, popped := w.pending[..|w.pending| - 1], Popped(graph, item);
    assert popped.location == item.location && popped.path == item.path;
    assert w.pending == front + [item];
    hide ItemSettled, DepthFirst, Popped, Children, Cut;
    AdvanceKeepsDepthFirst(graph, active, front, item, w.expanded);
    if settled {
      PoppedIsSettled(graph, active, item);
      forall c | c in Children(graph, active, popped) ensures ItemSettled(graph, active, c) {
        ChildInherits(graph, active, popped, c);
      }
    }
  }

  lemma SkippedStaysOrdered(graph: Graph, active: set<Location>, starts: iset<Location>, usedBefore: set<Bytes>,
                            settled: bool, w: Walk, item: Located)
    requires OnTrack(graph, active, starts, usedBefore, w) && w.pending != [] && item == w.pending[|w.pending| - 1]
    requires item.location in graph && Popped(graph, item).Key() in w.seen
    ensures Ordered(graph, active, settled, w) ==> Ordered(graph, active, settled, Skipped(w))
  {
    hide Ordered, Popped, Progress, Skipped;
    if Ordered(graph, active, settled, w) {
      SkippingStaysOrdered(graph, active, settled, w, item);
    }
  }

  lemma AdvancedStaysOrdered(graph: Graph, active: set<Location>, settled: bool, w: Walk, item: Located,
                             linked: set<Bytes>)
    requires w.pending != [] && item == w.pending[|w.pending| - 1]
    requires item.location in graph && item.location in item.path
    ensures Popped(graph, item).location == item.location
    ensures var popped := Popped(graph, item);
            Ordered(graph, active, settled, w) ==>
            Ordered(graph, active, settled,
                    Advanced(w, popped, Children(graph, active, popped), Cut(graph, active, popped), linked))
  {
    assert Popped(graph, item).location == item.location;
    hide Ordered, Popped, Children, Cut, Advanced;
    if Ordered(graph, active, settled, w) {
      AdvancingStaysOrdered(graph, active, settled, w, item, linked);
    }
  }

  lemma SkippedBelongs(graph: Graph, active: set<Location>, starts: iset<Location>, usedBefore: set<Bytes>,
                       schemas: seq<Located>, w: Walk, item: Located)
    requires OnTrack(graph, active, starts, usedBefore, w) && w.pending != [] && item == w.pending[|w.pending| - 1]
    requires item.location in graph && Popped(graph, item).Key() in w.seen
    ensures Belonging(graph, active, schemas, w.pending, w.expanded) ==>
            Belonging(graph, active, schemas, Skipped(w).pending, w.expanded)
  {
    var front := w.pending[..|w.pending| - 1];
    assert w.pending == front + [item];
    hide Belonging, Popped, Located.Key, Progress;
    if Belonging(graph, active, schemas, w.pending, w.expanded) {
      SkippingBelongs(graph, active, schemas, front, item, w.expanded);
    }
  }

  lemma AdvancedBelongs(graph: Graph, active: set<Location>, schemas: seq<Located>, w: Walk, item: Located)
    requires WellFormed(graph) && item.Within(graph) && PathLeads(graph, active, item)
    requires w.pending != [] && item == w.pending[|w.pending| - 1]
    ensures Popped(graph, item).location == item.location
    ensures Belonging(graph, active, schemas, w.pending, w.expanded) ==>
            Belonging(graph, active, schemas, w.pending[..|w.pending| - 1] + Children(graph, active, Popped(graph, item)),
                      w.expanded + [Popped(graph, item)])
  {
    var front := w.pending[..|w.pending| - 1];
    assert w.pending == front + [item] && Popped(graph, item).location == item.location;
    hide Belonging, Popped, Children, WellFormed, PathLeads;
    if Belonging(graph, active, schemas, w.pending, w.expanded) {
      AdvancingBelongs(graph, active, schemas, front, item, w.expanded);
    }
  }

  /** When the worklist is empty, every expanded schema carries its conjunctions. */
  lemma WalkIsConjoined(graph: Graph, active: set<Location>, starts: iset<Location>, schemas: seq<Located>,
                        usedBefore: set<Bytes>, settled: bool, w: Walk)
    requires OnTrack(graph, active, starts, usedBefore, w) && Ordered(graph, active, settled, w) && w.pending == []
    requires Belonging(graph, active, schemas, w.pending, w.expanded)
    ensures Conjoined(graph, active, schemas, w.expanded)
  {
    FinishedIsShut(graph, active, w.expanded);
    EmptyWorklistIsClosed(graph, active, starts, w.expanded);
    FinishedIsExpansion(graph, active, starts, Expansion(w.expanded, w.recursive));
    hide Shut, Belonging, Conjoined, DepthFirst, Progress, Recorded, Reached, Resolves;
    FinishedIsConjoined(graph, active, schemas, w.expanded);
  }

  lemma StartIsOnTrack(graph: Graph, active: set<Location>, usedBefore: set<Bytes>, settled: bool, w: Walk)
    requires Fresh(graph, w.pending) && w == Walk(w.pending, [], {}, {}, usedBefore)
    requires settled ==> OriginsSettled(graph, active, w.pending)
    ensures OnTrack(graph, active, Known(w.pending), usedBefore, w) && Ordered(graph, active, settled, w)
  {
    FreshIsProgress(graph, active, w.pending);
    hide Progress, Known, Located.Within;
  }

  /** When the worklist is empty, the loop answers. */
  lemma WalkIsExpansion(graph: Graph, active: set<Location>, starts: iset<Location>, usedBefore: set<Bytes>,
                        settled: bool, w: Walk)
    requires WellFormed(graph) && OnTrack(graph, active, starts, usedBefore, w)
    requires Ordered(graph, active, settled, w) && w.pending == []
    ensures var e := Expansion(w.expanded, w.recursive);
            Answers(graph, active, starts, Ok(e)) && UsesLinked(graph, usedBefore, e.schemas, w.used) &&
            (settled ==> ReportsRecursion(graph, active, starts, e) && KnownOrigins(graph, active, e))
  {
    var e := Expansion(w.expanded, w.recursive);
    FinishedIsExpansion(graph, active, starts, e);
    if settled {
      FinishedIsTraversed(graph, active, starts, w);
      hide *;
      RecursionIsReported(graph, active, starts, e);
      OriginsAreKnown(graph, active, e);
    }
  }

  lemma FinishedIsTraversed(graph: Graph, active: set<Location>, starts: iset<Location>, w: Walk)
    requires Progress(graph, active, starts, w.pending, w.expanded) && DistinctKeys(w.expanded)
    requires Ordered(graph, active, true, w) && w.pending == []
    ensures Traversed(graph, active, w.expanded)
  {
    FinishedIsShut(graph, active, w.expanded);
    hide Shut, PathLeads, ItemSettled;
    assert Known([]) + Known(w.expanded) == Known(w.expanded);
  }

  lemma CostsSomething(graph: Graph, active: set<Location>, pending: seq<Located>)
    requires WellFormed(graph) && AllWithin(graph, pending) && pending != []
    ensures PendingCost(graph, active, pending) >= 1
  {
  }

  /** Dropping a schema, or replacing it by what it adds, pays for the visit. */
  lemma VisitPaid(graph: Graph, active: set<Location>, front: seq<Located>, item: Located)
    requires WellFormed(graph) && AllWithin(graph, front + [item])
    ensures item.Within(graph) && AllWithin(graph, front)
    ensures Popped(graph, item).location == item.location
    ensures AllWithin(graph, front + Children(graph, active, Popped(graph, item)))
    ensures PendingCost(graph, active, front) + 1 <= PendingCost(graph, active, front + [item])
    ensures PendingCost(graph, active, front + Children(graph, active, Popped(graph, item))) + 1
         == PendingCost(graph, active, front + [item])
  {
    assert item == (front + [item])[|front|];
    assert forall i | 0 <= i < |front| :: (front + [item])[i] == front[i];
    hide Cost, PendingCost, WellFormed;
    CostsAddUp(graph, active, front, [item]);
    OneCost(graph, active, item);
    PoppedIsPlaced(graph, active, item);
    ChildrenCostLess(graph, active, Popped(graph, item));
    CostsAddUp(graph, active, front, Children(graph, active, Popped(graph, item)));
  }

  /** One visit: the schema is dropped as seen, or expanded, or its links do not resolve. */
  method Visit(graph: Graph, active: set<Location>, ghost starts: iset<Location>, ghost usedBefore: set<Bytes>,
               ghost settled: bool, ghost schemas: seq<Located>, w: Walk)
    returns (unresolved: Option<Location>, next: Walk)
    requires WellFormed(graph) && OnTrack(graph, active, starts, usedBefore, w) && w.pending != []
    ensures unresolved.Some? ==> Answers(graph, active, starts, Err(UnsupportedReference(unresolved.value)))
    ensures unresolved.None? ==> AllWithin(graph, next.pending) && OnTrack(graph, active, starts, usedBefore, next)
    ensures unresolved.None? && Ordered(graph, active, settled, w) ==> Ordered(graph, active, settled, next)
    ensures unresolved.None? && Belonging(graph, active, schemas, w.pending, w.expanded) ==>
              Belonging(graph, active, schemas, next.pending, next.expanded)
    ensures unresolved.None? ==>
              PendingCost(graph, active, next.pending) + 1 <= PendingCost(graph, active, w.pending)
  {
    hide Progress, Recorded, PendingCost, Reached, Resolves, PathLeads, WellFormed, Known, Children, Popped, Cut,
         LeadsInto, UsedBy, Located.Key, AllWithin, Ordered, Belonging;
    ghost var front := w.pending[..|w.pending| - 1];
    var item := w.pending[|w.pending| - 1];
    assert w.pending == front + [item];
    TopOfWorklist(graph, active, starts, front, item, w.expanded);
    VisitPaid(graph, active, front, item);
    var popped := Popped(graph, item);
    if popped.Key() in w.seen {
      SkippingStaysOnTrack(graph, active, starts, usedBefore, w, item);
      SkippedStaysOrdered(graph, active, starts, usedBefore, settled, w, item);
      SkippedBelongs(graph, active, starts, usedBefore, schemas, w, item);
      return None, Skipped(w);
    }
    var resolved, children, cut, linked := ExpandOne(graph, active, popped);
    if !resolved {
      return Some(item.location), w;
    }
    AdvancingStaysOnTrack(graph, active, starts, usedBefore, w, item, linked);
    AdvancedStaysOrdered(graph, active, settled, w, item, linked);
    AdvancedBelongs(graph, active, schemas, w, item);
    return None, Advanced(w, popped, children, cut, linked);
  }

  /** `expand_references`, without the final sort. It terminates even when the traversal limit never bites. */
  method ExpandReferences(graph: Graph, schemas: seq<Located>, active: set<Location>, usedBefore: set<Bytes>,
                          maximum: nat, visitsBefore: nat)
    returns (r: Result<Expansion, ExpansionError>, used: set<Bytes>, visits: nat)
    requires WellFormed(graph) && Fresh(graph, schemas) && AllWithin(graph, schemas)
    requires maximum <= USIZE_MAX && visitsBefore <= USIZE_MAX
    ensures Answers(graph, active, Known(schemas), r)
    ensures r.Ok? && OriginsSettled(graph, active, schemas) ==>
              ReportsRecursion(graph, active, Known(schemas), r.value) && KnownOrigins(graph, active, r.value)
    ensures r.Ok? ==> Conjoined(graph, active, schemas, r.value.schemas)
    ensures r.Ok? ==> UsesLinked(graph, usedBefore, r.value.schemas, used)
    ensures r.Err? && r.error.TraversalExceeded? ==>
              r.error == TraversalExceeded(maximum, visits) && maximum < visits
    ensures visitsBefore <= maximum ==>
              if r.Err? && r.error.TraversalExceeded? then visits == maximum + 1 else visits <= maximum
    ensures visits <= USIZE_MAX && visits <= visitsBefore + PendingCost(graph, active, schemas)
  {
    hide OnTrack, Known, PendingCost, Ordered, OriginsSettled, IsExpansion, Reached, Resolves, ReportsRecursion,
         KnownOrigins, UsesLinked, AllWithin, WellFormed, Fresh, Belonging, Conjoined;
    var walk := Walk(schemas, [], {}, {}, usedBefore);
    visits := visitsBefore;
    ghost var settled := OriginsSettled(graph, active, schemas);
    StartIsOnTrack(graph, active, usedBefore, settled, walk);
    StartBelongs(graph, active, schemas);
    while walk.pending != []
      invariant AllWithin(graph, walk.pending) && OnTrack(graph, active, Known(schemas), usedBefore, walk)
      invariant Ordered(graph, active, settled, walk)
      invariant Belonging(graph, active, schemas, walk.pending, walk.expanded)
      invariant visits <= USIZE_MAX && (visitsBefore <= maximum ==> visits <= maximum)
      invariant visits + PendingCost(graph, active, walk.pending) <= visitsBefore + PendingCost(graph, active, schemas)
      decreases PendingCost(graph, active, walk.pending)
    {
      var unresolved;
      visits := SaturatingAdd(visits, 1);
      CostsSomething(graph, active, walk.pending);
      if visits > maximum {
        return Err(TraversalExceeded(maximum, visits)), walk.used, visits;
      }
      unresolved, walk := Visit(graph, active, Known(schemas), usedBefore, settled, schemas, walk);
      if unresolved.Some? {
        return Err(UnsupportedReference(unresolved.value)), walk.used, visits;
      }
    }
    WalkIsExpansion(graph, active, Known(schemas), usedBefore, settled, walk);
    WalkIsConjoined(graph, active, Known(schemas), schemas, usedBefore, settled, walk);
    return Ok(Expansion(walk.expanded, walk.recursive)), walk.used, visits;
  }
}
