/** Following `$ref` and `allOf` through a schema graph that may be cyclic. */
module References {
  import opened Bytes
  import opened Json

  /** A normalised place in a resource. */
  datatype Location = Location(resource: Bytes, pointer: Pointer)

  /** A reference or a branch, as the resource graph resolves it. */
  datatype Link = Unresolved | To(target: Location)

  /** What expansion looks at in a schema: its size as a document, its `$ref` and its `allOf`. */
  datatype Schema = Schema(size: nat, reference: Option<Link>, allOf: Option<seq<Link>>)

  type Graph = map<Location, Schema>

  /** Links stay in the graph, and a branch is a proper part of the schema that holds it. */
  ghost predicate WellFormed(graph: Graph) {
    forall l | l in graph ::
      && (graph[l].reference.Some? && graph[l].reference.value.To? ==> graph[l].reference.value.target in graph)
      && (graph[l].allOf.Some? ==> SmallerBranches(graph, graph[l].allOf.value, graph[l].size))
  }

  ghost predicate SmallerBranches(graph: Graph, branches: seq<Link>, size: nat) {
    forall i | 0 <= i < |branches| && branches[i].To? ::
      branches[i].target in graph && graph[branches[i].target].size < size
  }

  datatype Membership = Membership(origin: Location, branch: Option<nat>)

  datatype Located = Located(location: Location, memberships: seq<Membership>, path: seq<Location>)
  {
    ghost predicate Within(graph: Graph) {
      location in graph && forall p | p in path :: p in graph
    }

    function Key(): (Location, set<Membership>) {
      (location, set m | m in memberships)
    }
  }

  function PushMembership(memberships: seq<Membership>, membership: Membership): seq<Membership> {
    if membership in memberships then memberships else memberships + [membership]
  }

  /** The schema the loop goes on with: one with an `allOf` is a member of its own conjunction. */
  function Popped(graph: Graph, item: Located): Located
    requires item.location in graph
  {
    if graph[item.location].allOf.None? then item
    else item.(memberships := PushMembership(item.memberships, Membership(item.location, None)))
  }

  // ------------------------------------------------------------------ what one schema adds

  /** The target of a reference that may be followed: not already being expanded, here or outside. */
  function Followed(graph: Graph, active: set<Location>, location: Location, path: seq<Location>): Option<Location>
    requires location in graph
  {
    match graph[location].reference
    case Some(To(target)) => if target in active || target in path then None else Some(target)
    case _ => None
  }

  function Branches(graph: Graph, location: Location): seq<Link>
    requires location in graph
  {
    if graph[location].allOf.None? then [] else graph[location].allOf.value
  }

  function BranchPath(path: seq<Location>, branch: Location): seq<Location> {
    if branch in path then path else path + [branch]
  }

  function BranchItem(item: Located, branch: Location, index: nat): Located {
    Located(branch, PushMembership(item.memberships, Membership(item.location, Some(index))),
            BranchPath(item.path, branch))
  }

  function BranchItems(item: Located, branches: seq<Link>): seq<Located> {
    if branches == [] then []
    else
      var last := |branches| - 1;
      BranchItems(item, branches[..last]) +
      (if branches[last].Unresolved? then [] else [BranchItem(item, branches[last].target, last)])
  }

  function ReferenceItems(graph: Graph, active: set<Location>, item: Located): seq<Located>
    requires item.location in graph
  {
    match Followed(graph, active, item.location, item.path)
    case None => []
    case Some(target) => [Located(target, item.memberships, item.path + [target])]
  }

  // --------------------------------------------------------------------- the termination measure

  ghost function OffPath(graph: Graph, path: seq<Location>): set<Location> {
    set l | l in graph && l !in path
  }

  lemma LongerPathsLeaveLess(graph: Graph, path: seq<Location>, next: Location)
    requires next in graph
    ensures next !in path ==> |OffPath(graph, path + [next])| < |OffPath(graph, path)|
    ensures |OffPath(graph, BranchPath(path, next))| <= |OffPath(graph, path)|
  {
    if next !in path {
      assert OffPath(graph, path) == OffPath(graph, path + [next]) + {next};
    }
  }

  /** The number of schemas visited from one on, if none were recognised as seen. */
  ghost function Cost(graph: Graph, active: set<Location>, location: Location, path: seq<Location>): nat
    requires WellFormed(graph) && location in graph
    decreases |OffPath(graph, path)|, graph[location].size, |Branches(graph, location)| + 1
  {
    var followed := Followed(graph, active, location, path);
    1 + BranchCost(graph, active, location, Branches(graph, location), path) +
    (if followed.None? then 0
     else LongerPathsLeaveLess(graph, path, followed.value);
          Cost(graph, active, followed.value, path + [followed.value]))
  }

  ghost function BranchCost(graph: Graph, active: set<Location>, owner: Location, branches: seq<Link>,
                            path: seq<Location>): nat
    requires WellFormed(graph) && owner in graph && SmallerBranches(graph, branches, graph[owner].size)
    decreases |OffPath(graph, path)|, graph[owner].size, |branches|
  {
    if branches == [] then 0
    else
      var last := branches[|branches| - 1];
      BranchCost(graph, active, owner, branches[..|branches| - 1], path) +
      (if last.Unresolved? then 0
       else LongerPathsLeaveLess(graph, path, last.target);
            Cost(graph, active, last.target, BranchPath(path, last.target)))
  }

  ghost predicate AllWithin(graph: Graph, items: seq<Located>) {
    forall i | 0 <= i < |items| :: items[i].Within(graph)
  }

  ghost function PendingCost(graph: Graph, active: set<Location>, items: seq<Located>): nat
    requires WellFormed(graph) && AllWithin(graph, items)
  {
    if items == [] then 0
    else
      var last := items[|items| - 1];
      PendingCost(graph, active, items[..|items| - 1]) + Cost(graph, active, last.location, last.path)
  }

  lemma {:induction false} CostsAddUp(graph: Graph, active: set<Location>, items: seq<Located>, more: seq<Located>)
    requires WellFormed(graph) && AllWithin(graph, items) && AllWithin(graph, more)
    ensures PendingCost(graph, active, items + more)
         == PendingCost(graph, active, items) + PendingCost(graph, active, more)
    decreases |more|
  {
    if more == [] {
      assert items + more == items;
    } else {
      hide Cost;
      assert (items + more)[..|items + more| - 1] == items + more[..|more| - 1];
      CostsAddUp(graph, active, items, more[..|more| - 1]);
    }
  }

  lemma LastBranchCost(graph: Graph, active: set<Location>, owner: Location, branches: seq<Link>, path: seq<Location>)
    requires WellFormed(graph) && owner in graph && SmallerBranches(graph, branches, graph[owner].size)
    requires branches != []
    ensures var last, rest := branches[|branches| - 1], branches[..|branches| - 1];
            BranchCost(graph, active, owner, branches, path)
            == BranchCost(graph, active, owner, rest, path)
               + if last.Unresolved? then 0 else Cost(graph, active, last.target, BranchPath(path, last.target))
  {
    if branches[|branches| - 1].To? {
      LongerPathsLeaveLess(graph, path, branches[|branches| - 1].target);
    }
  }

  lemma {:induction false} BranchItemsCost(graph: Graph, active: set<Location>, item: Located, branches: seq<Link>)
    requires WellFormed(graph) && item.Within(graph) && SmallerBranches(graph, branches, graph[item.location].size)
    ensures AllWithin(graph, BranchItems(item, branches))
    ensures PendingCost(graph, active, BranchItems(item, branches))
         == BranchCost(graph, active, item.location, branches, item.path)
    decreases |branches|
  {
    if branches == [] {
    } else {
      hide Cost, BranchCost, PendingCost, WellFormed, BranchItems, BranchItem;
      var last := |branches| - 1;
      LastBranchItem(item, branches);
      LastBranchCost(graph, active, item.location, branches, item.path);
      BranchItemsCost(graph, active, item, branches[..last]);
      if branches[last].To? {
        var child := BranchItem(item, branches[last].target, last);
        BranchIsWithin(graph, item, branches[last].target, last);
        hide Located.Within;
        CostsAddUp(graph, active, BranchItems(item, branches[..last]), [child]);
        OneCost(graph, active, child);
      }
    }
  }

  lemma LastBranchItem(item: Located, branches: seq<Link>)
    requires branches != []
    ensures var last := |branches| - 1;
            BranchItems(item, branches) ==
            if branches[last].Unresolved? then BranchItems(item, branches[..last])
            else BranchItems(item, branches[..last]) + [BranchItem(item, branches[last].target, last)]
  {
  }

  lemma BranchIsWithin(graph: Graph, item: Located, branch: Location, index: nat)
    requires item.Within(graph) && branch in graph
    ensures BranchItem(item, branch, index).Within(graph)
    ensures BranchItem(item, branch, index).location == branch
    ensures BranchItem(item, branch, index).path == BranchPath(item.path, branch)
  {
  }

  lemma OneCost(graph: Graph, active: set<Location>, item: Located)
    requires WellFormed(graph) && item.Within(graph)
    ensures PendingCost(graph, active, [item]) == Cost(graph, active, item.location, item.path)
  {
    hide Cost;
    assert [item][..0] == [];
  }

  ghost function Children(graph: Graph, active: set<Location>, item: Located): seq<Located>
    requires item.location in graph
  {
    ReferenceItems(graph, active, item) + BranchItems(item, Branches(graph, item.location))
  }

  /** Replacing a schema by what it adds lowers the cost by exactly one visit. */
  lemma ChildrenCostLess(graph: Graph, active: set<Location>, item: Located)
    requires WellFormed(graph) && item.Within(graph)
    ensures AllWithin(graph, Children(graph, active, item))
    ensures 1 + PendingCost(graph, active, Children(graph, active, item))
         == Cost(graph, active, item.location, item.path)
  {
    var links, references := Branches(graph, item.location), ReferenceItems(graph, active, item);
    BranchItemsCost(graph, active, item, links);
    CostsAddUp(graph, active, references, BranchItems(item, links));
    if references != [] {
      OneCost(graph, active, references[0]);
    }
  }

  // ------------------------------------------------------------------------ the least closed set

  /** Applying schemas: with a schema, its branches apply, and the target of its reference unless active. */
  ghost predicate Closed(graph: Graph, active: set<Location>, s: iset<Location>) {
    forall l | l in s && l in graph :: LinksLead(graph, active, l, s)
  }

  ghost predicate LinksLead(graph: Graph, active: set<Location>, l: Location, s: iset<Location>)
    requires l in graph
  {
    && (forall i | 0 <= i < |Branches(graph, l)| && Branches(graph, l)[i].To? :: Branches(graph, l)[i].target in s)
    && (match graph[l].reference case Some(To(target)) => target in active || target in s case _ => true)
  }

  /** The location is in every closed set that holds the starts. */
  ghost predicate Reached(graph: Graph, active: set<Location>, starts: iset<Location>, l: Location) {
    forall s: iset<Location> | starts <= s && Closed(graph, active, s) :: l in s
  }

  ghost predicate Resolves(graph: Graph, l: Location)
    requires l in graph
  {
    && (graph[l].reference.Some? ==> graph[l].reference.value.To?)
    && forall i | 0 <= i < |Branches(graph, l)| :: Branches(graph, l)[i].To?
  }

  ghost function Known(items: seq<Located>): iset<Location> {
    iset item | item in items :: item.location
  }

  lemma KnownOfSum(items: seq<Located>, more: seq<Located>)
    ensures Known(items + more) == Known(items) + Known(more)
  {
  }

  lemma LinksReach(graph: Graph, active: set<Location>, starts: iset<Location>, l: Location)
    requires l in graph && Reached(graph, active, starts, l)
    ensures forall i | 0 <= i < |Branches(graph, l)| && Branches(graph, l)[i].To? ::
              Reached(graph, active, starts, Branches(graph, l)[i].target)
    ensures match graph[l].reference
            case Some(To(target)) => target in active || Reached(graph, active, starts, target)
            case _ => true
  {
    forall s: iset<Location> | starts <= s && Closed(graph, active, s) ensures LinksLead(graph, active, l, s) {
      assert l in s;
    }
  }

  lemma ReachesItself(graph: Graph, active: set<Location>, l: Location)
    ensures Reached(graph, active, iset{l}, l)
  {
  }

  /** Everything on the path of a schema leads to it. */
  ghost predicate PathLeads(graph: Graph, active: set<Location>, item: Located) {
    && item.location in item.path
    && forall p | p in item.path :: Reached(graph, active, iset{p}, item.location)
  }

  /** What every schema added by another one satisfies. */
  ghost predicate ChildOf(graph: Graph, active: set<Location>, item: Located, child: Located) {
    && child.Within(graph) && PathLeads(graph, active, child)
    && Reached(graph, active, iset{item.location}, child.location)
    && forall p | p in child.path :: p in item.path || p == child.location
  }

  ghost predicate AllChildrenOf(graph: Graph, active: set<Location>, item: Located, children: seq<Located>) {
    forall i | 0 <= i < |children| :: ChildOf(graph, active, item, children[i])
  }

  /** A link that leads on extends every path that leads to it. */
  lemma NextLeads(graph: Graph, active: set<Location>, item: Located, child: Located)
    requires item.Within(graph) && PathLeads(graph, active, item) && child.location in graph
    requires child.path == BranchPath(item.path, child.location)
    requires Reached(graph, active, iset{item.location}, child.location)
    ensures ChildOf(graph, active, item, child)
  {
    ReachesItself(graph, active, child.location);
    forall p | p in item.path ensures Reached(graph, active, iset{p}, child.location) {
      ReachedThrough(graph, active, iset{p}, item.location, child.location);
    }
  }

  lemma ReachedThrough(graph: Graph, active: set<Location>, starts: iset<Location>, l: Location, m: Location)
    requires Reached(graph, active, starts, l) && Reached(graph, active, iset{l}, m)
    ensures Reached(graph, active, starts, m)
  {
    forall s: iset<Location> | starts <= s && Closed(graph, active, s) ensures m in s {
      assert l in s;
      assert iset{l} <= s;
    }
  }

  lemma {:induction false} BranchTargetsKnown(item: Located, branches: seq<Link>)
    ensures forall i | 0 <= i < |branches| && branches[i].To? :: branches[i].target in Known(BranchItems(item, branches))
    decreases |branches|
  {
    if branches != [] {
      var last := |branches| - 1;
      var before := BranchItems(item, branches[..last]);
      BranchTargetsKnown(item, branches[..last]);
      assert forall i | 0 <= i < last :: branches[..last][i] == branches[i];
      if branches[last].To? {
        KnownOfSum(before, [BranchItem(item, branches[last].target, last)]);
        OneKnown(BranchItem(item, branches[last].target, last));
      } else {
        KnownOfSum(before, []);
      }
    }
  }

  lemma {:induction false} BranchItemsLead(graph: Graph, active: set<Location>, item: Located, count: nat)
    requires WellFormed(graph) && item.Within(graph) && PathLeads(graph, active, item)
    requires count <= |Branches(graph, item.location)|
    ensures AllChildrenOf(graph, active, item, BranchItems(item, Branches(graph, item.location)[..count]))
    decreases count
  {
    if count > 0 {
      var links := Branches(graph, item.location);
      BranchItemsLead(graph, active, item, count - 1);
      assert links[..count][..count - 1] == links[..count - 1];
      if links[count - 1].To? {
        BranchLeads(graph, active, item, count - 1);
      }
      hide ChildOf;
    }
  }

  lemma BranchLeads(graph: Graph, active: set<Location>, item: Located, index: nat)
    requires WellFormed(graph) && item.Within(graph) && PathLeads(graph, active, item)
    requires index < |Branches(graph, item.location)| && Branches(graph, item.location)[index].To?
    ensures ChildOf(graph, active, item, BranchItem(item, Branches(graph, item.location)[index].target, index))
  {
    ReachesItself(graph, active, item.location);
    LinksReach(graph, active, iset{item.location}, item.location);
    NextLeads(graph, active, item, BranchItem(item, Branches(graph, item.location)[index].target, index));
  }

  lemma ReferenceItemsLead(graph: Graph, active: set<Location>, item: Located)
    requires WellFormed(graph) && item.Within(graph) && PathLeads(graph, active, item)
    ensures AllChildrenOf(graph, active, item, ReferenceItems(graph, active, item))
  {
    if Followed(graph, active, item.location, item.path).Some? {
      ReachesItself(graph, active, item.location);
      LinksReach(graph, active, iset{item.location}, item.location);
      NextLeads(graph, active, item, ReferenceItems(graph, active, item)[0]);
    }
  }

  // -------------------------------------------------------------------------- the worklist

  /** The reference of this schema was cut: its target is active, or already on the path that led here. */
  predicate Cut(graph: Graph, active: set<Location>, item: Located)
    requires item.location in graph
  {
    match graph[item.location].reference
    case Some(To(target)) => target in active || target in item.path
    case _ => false
  }

  /** The links of a schema already expanded lead to known schemas. */
  ghost predicate Settled(graph: Graph, active: set<Location>, known: iset<Location>, expanded: seq<Located>) {
    forall i | 0 <= i < |expanded| ::
      && expanded[i].location in graph && Resolves(graph, expanded[i].location)
      && LinksLead(graph, active, expanded[i].location, known) && PathLeads(graph, active, expanded[i])
      && forall p | p in expanded[i].path :: p in known
  }

  /** The path of a schema still to be expanded runs through known schemas. */
  ghost predicate Waiting(graph: Graph, active: set<Location>, known: iset<Location>, pending: seq<Located>) {
    forall i | 0 <= i < |pending| ::
      && pending[i].Within(graph) && PathLeads(graph, active, pending[i])
      && forall p | p in pending[i].path :: p in known
  }

  ghost predicate AllReached(graph: Graph, active: set<Location>, starts: iset<Location>, known: iset<Location>) {
    forall l | l in known :: Reached(graph, active, starts, l)
  }

  /** What holds whenever the worklist is consulted. */
  ghost predicate Progress(graph: Graph, active: set<Location>, starts: iset<Location>, pending: seq<Located>,
                           expanded: seq<Located>) {
    var known := Known(pending) + Known(expanded);
    && starts <= known && AllReached(graph, active, starts, known)
    && Settled(graph, active, known, expanded) && Waiting(graph, active, known, pending)
  }

  lemma SeenIsDropped(graph: Graph, active: set<Location>, starts: iset<Location>, front: seq<Located>, item: Located,
                      expanded: seq<Located>)
    requires Progress(graph, active, starts, front + [item], expanded) && item.location in Known(expanded)
    ensures Progress(graph, active, starts, front, expanded)
  {
    KnownOfSum(front, [item]);
    assert forall i | 0 <= i < |front| :: (front + [item])[i] == front[i];
    assert Known(front + [item]) + Known(expanded) == Known(front) + Known(expanded);
  }

  lemma ChildrenAreReached(graph: Graph, active: set<Location>, starts: iset<Location>, item: Located,
                           children: seq<Located>)
    requires Reached(graph, active, starts, item.location) && AllChildrenOf(graph, active, item, children)
    ensures AllReached(graph, active, starts, Known(children))
  {
    forall l | l in Known(children) ensures Reached(graph, active, starts, l) {
      var i :| 0 <= i < |children| && children[i].location == l;
      ReachedThrough(graph, active, starts, item.location, children[i].location);
    }
  }

  lemma ChildrenLead(graph: Graph, active: set<Location>, item: Located)
    requires WellFormed(graph) && item.Within(graph) && PathLeads(graph, active, item)
    ensures AllChildrenOf(graph, active, item, Children(graph, active, item))
    ensures forall i | 0 <= i < |Branches(graph, item.location)| && Branches(graph, item.location)[i].To? ::
              Branches(graph, item.location)[i].target in Known(Children(graph, active, item))
    ensures Followed(graph, active, item.location, item.path).Some? ==>
              Followed(graph, active, item.location, item.path).value in Known(Children(graph, active, item))
  {
    var links := Branches(graph, item.location);
    var references := ReferenceItems(graph, active, item);
    assert links[..|links|] == links;
    BranchItemsLead(graph, active, item, |links|);
    BranchTargetsKnown(item, links);
    ReferenceItemsLead(graph, active, item);
    KnownOfSum(references, BranchItems(item, links));
    if references != [] {
      assert references[0] in references;
    }
  }

  lemma ChildrenWait(graph: Graph, active: set<Location>, known: iset<Location>, item: Located, children: seq<Located>)
    requires AllChildrenOf(graph, active, item, children) && Known(children) <= known
    requires forall p | p in item.path :: p in known
    ensures Waiting(graph, active, known, children)
  {
    forall i | 0 <= i < |children| ensures children[i].location in known {
      assert children[i] in children;
    }
  }

  lemma SettledWider(graph: Graph, active: set<Location>, known: iset<Location>, wider: iset<Location>,
                     expanded: seq<Located>)
    requires Settled(graph, active, known, expanded) && known <= wider
    ensures Settled(graph, active, wider, expanded)
  {
  }

  lemma SettledWithOneMore(graph: Graph, active: set<Location>, known: iset<Location>, expanded: seq<Located>,
                           item: Located)
    requires WellFormed(graph) && item.Within(graph) && PathLeads(graph, active, item)
    requires Resolves(graph, item.location)
    requires Settled(graph, active, known, expanded) && Known(Children(graph, active, item)) <= known
    requires forall p | p in item.path :: p in known
    ensures Settled(graph, active, known, expanded + [item])
  {
    ChildrenLead(graph, active, item);
    hide Known, Children;
    assert LinksLead(graph, active, item.location, known);
  }

  lemma WaitingWithMore(graph: Graph, active: set<Location>, known: iset<Location>, wider: iset<Location>,
                        front: seq<Located>, item: Located, children: seq<Located>)
    requires Waiting(graph, active, known, front + [item]) && known <= wider
    requires Waiting(graph, active, wider, children)
    ensures Waiting(graph, active, wider, front + children)
  {
    assert forall i | 0 <= i < |front| :: (front + [item])[i] == front[i];
  }

  lemma KnownWithChildren(front: seq<Located>, item: Located, popped: Located, children: seq<Located>,
                          expanded: seq<Located>)
    requires popped.location == item.location
    ensures Known(front + children) + Known(expanded + [popped])
         == Known(front + [item]) + Known(expanded) + Known(children)
  {
    KnownOfSum(front, [item]);
    KnownOfSum(front, children);
    KnownOfSum(expanded, [popped]);
    OneKnown(item);
    OneKnown(popped);
    hide Known;
  }

  lemma NewIsExpanded(graph: Graph, active: set<Location>, starts: iset<Location>, front: seq<Located>, item: Located,
                      expanded: seq<Located>)
    requires WellFormed(graph) && Progress(graph, active, starts, front + [item], expanded)
    requires item.location in graph && Resolves(graph, item.location)
    ensures Progress(graph, active, starts, front + Children(graph, active, Popped(graph, item)),
                     expanded + [Popped(graph, item)])
  {
    var popped, known := Popped(graph, item), Known(front + [item]) + Known(expanded);
    assert popped.location == item.location;
    hide Reached, PathLeads, Known, Children, Popped, Resolves, AllChildrenOf, Settled, Waiting, WellFormed, AllReached,
         Located.Within;
    var children := Children(graph, active, popped);
    var known' := known + Known(children);
    TopOfWorklist(graph, active, starts, front, item, expanded);
    PathIsKnown(graph, active, known, front, item);
    PoppedIsPlaced(graph, active, item);
    ChildrenLead(graph, active, popped);
    ChildrenAreReached(graph, active, starts, popped, children);
    ChildrenWait(graph, active, known', popped, children);
    SettledWider(graph, active, known, known', expanded);
    SettledWithOneMore(graph, active, known', expanded, popped);
    WaitingWithMore(graph, active, known, known', front, item, children);
    KnownWithChildren(front, item, popped, children, expanded);
    ReachedOfBoth(graph, active, starts, known, Known(children));
  }

  lemma ReachedOfBoth(graph: Graph, active: set<Location>, starts: iset<Location>, known: iset<Location>,
                      more: iset<Location>)
    requires AllReached(graph, active, starts, known) && AllReached(graph, active, starts, more)
    ensures AllReached(graph, active, starts, known + more)
  {
  }

  lemma PathIsKnown(graph: Graph, active: set<Location>, known: iset<Location>, front: seq<Located>, item: Located)
    requires Waiting(graph, active, known, front + [item])
    ensures forall p | p in item.path :: p in known
  {
    assert item == (front + [item])[|front|];
  }

  lemma OneKnown(item: Located)
    ensures Known([item]) == iset{item.location}
  {
    assert item in [item];
  }

  lemma PoppedIsPlaced(graph: Graph, active: set<Location>, item: Located)
    requires item.Within(graph)
    ensures Popped(graph, item).location == item.location && Popped(graph, item).path == item.path
    ensures Popped(graph, item).Within(graph)
    ensures PathLeads(graph, active, item) ==> PathLeads(graph, active, Popped(graph, item))
  {
  }

  lemma EmptyWorklistIsClosed(graph: Graph, active: set<Location>, starts: iset<Location>, expanded: seq<Located>)
    requires Progress(graph, active, starts, [], expanded)
    ensures forall l :: l in Known(expanded) <==> Reached(graph, active, starts, l)
  {
    assert Known([]) + Known(expanded) == Known(expanded);
    assert Closed(graph, active, Known(expanded));
  }

  // ------------------------------------------------------------------------- the expansion

  datatype Expansion = Expansion(schemas: seq<Located>, recursive: set<Location>)

  datatype ExpansionError =
    | TraversalExceeded(maximum: nat, observed: nat)
    | UnsupportedReference(location: Location)

  /** No schema is expanded twice for the same conjunctions. */
  ghost predicate DistinctKeys(expanded: seq<Located>) {
    forall i, j | 0 <= i < j < |expanded| :: expanded[i].Key() != expanded[j].Key()
  }

  ghost predicate SeenIs(seen: set<(Location, set<Membership>)>, expanded: seq<Located>) {
    && DistinctKeys(expanded)
    && (forall key | key in seen :: exists e :: e in expanded && e.Key() == key)
    && forall e | e in expanded :: e.Key() in seen
  }

  /** The recursive findings: the locations of the references that were cut. */
  ghost predicate ReportsCuts(graph: Graph, active: set<Location>, expanded: seq<Located>, recursive: set<Location>) {
    && (forall l | l in recursive :: exists e :: e in expanded && e.location == l && l in graph && Cut(graph, active, e))
    && forall e | e in expanded && e.location in graph && Cut(graph, active, e) :: e.location in recursive
  }

  /** A reported reference is truly recursive: its target is already active outside, or leads back to it. */
  ghost predicate TrulyRecursive(graph: Graph, active: set<Location>, l: Location) {
    && l in graph && graph[l].reference.Some? && graph[l].reference.value.To?
    && (graph[l].reference.value.target in active || Reached(graph, active, iset{graph[l].reference.value.target}, l))
  }

  ghost predicate TargetIsActive(graph: Graph, active: set<Location>, l: Location) {
    && l in graph && graph[l].reference.Some? && graph[l].reference.value.To?
    && graph[l].reference.value.target in active
  }

  lemma CutsAreRecursive(graph: Graph, active: set<Location>, known: iset<Location>, expanded: seq<Located>,
                         recursive: set<Location>)
    requires Settled(graph, active, known, expanded) && ReportsCuts(graph, active, expanded, recursive)
    ensures forall l | l in recursive :: TrulyRecursive(graph, active, l)
    ensures forall i | 0 <= i < |expanded| && TargetIsActive(graph, active, expanded[i].location) ::
              expanded[i].location in recursive
  {
    forall l | l in recursive ensures TrulyRecursive(graph, active, l) {
      var e :| e in expanded && e.location == l && l in graph && Cut(graph, active, e);
    }
  }

  // ------------------------------------------------------------------ the resources in use

  /** Some link of the schema, followed or cut, leads into the resource. */
  ghost predicate LeadsInto(graph: Graph, l: Location, resource: Bytes)
    requires l in graph
  {
    || (graph[l].reference.Some? && graph[l].reference.value.To? && graph[l].reference.value.target.resource == resource)
    || BranchesLeadInto(Branches(graph, l), resource)
  }

  ghost predicate BranchesLeadInto(branches: seq<Link>, resource: Bytes) {
    exists i :: 0 <= i < |branches| && branches[i].To? && branches[i].target.resource == resource
  }

  /** The resources in use are those used before and those some expanded schema leads into. */
  ghost predicate UsesLinked(graph: Graph, before: set<Bytes>, expanded: seq<Located>, used: set<Bytes>) {
    forall resource :: resource in used <==> resource in before || UsedBy(graph, expanded, resource)
  }

  ghost predicate UsedBy(graph: Graph, expanded: seq<Located>, resource: Bytes) {
    exists i :: 0 <= i < |expanded| && expanded[i].location in graph && LeadsInto(graph, expanded[i].location, resource)
  }

  lemma UsedByOneMore(graph: Graph, expanded: seq<Located>, item: Located, resource: Bytes)
    requires item.location in graph
    ensures UsedBy(graph, expanded + [item], resource)
       <==> UsedBy(graph, expanded, resource) || LeadsInto(graph, item.location, resource)
  {
    hide LeadsInto;
    if UsedBy(graph, expanded, resource) {
      var i :| 0 <= i < |expanded| && expanded[i].location in graph && LeadsInto(graph, expanded[i].location, resource);
      assert (expanded + [item])[i] == expanded[i];
    }
    assert (expanded + [item])[|expanded|] == item;
  }

  /** A caller hands in schemas each of which has only itself on its path. */
  ghost predicate Fresh(graph: Graph, schemas: seq<Located>) {
    forall i | 0 <= i < |schemas| :: schemas[i].location in graph && schemas[i].path == [schemas[i].location]
  }

  lemma FreshIsProgress(graph: Graph, active: set<Location>, schemas: seq<Located>)
    requires Fresh(graph, schemas)
    ensures AllWithin(graph, schemas) && Progress(graph, active, Known(schemas), schemas, [])
  {
    forall i | 0 <= i < |schemas| ensures schemas[i].location in Known(schemas) {
      assert schemas[i] in schemas;
    }
    assert forall l :: Reached(graph, active, iset{l}, l);
  }

  ghost predicate AllResolve(graph: Graph, active: set<Location>, starts: iset<Location>) {
    forall l | Reached(graph, active, starts, l) :: l in graph && Resolves(graph, l)
  }

  /** The answer of an expansion that succeeds. */
  ghost predicate IsExpansion(graph: Graph, active: set<Location>, starts: iset<Location>, e: Expansion) {
    && (forall l :: l in Known(e.schemas) <==> Reached(graph, active, starts, l))
    && (forall l | l in Known(e.schemas) :: l in graph && Resolves(graph, l))
    && DistinctKeys(e.schemas)
    && (forall l | l in e.recursive :: TrulyRecursive(graph, active, l))
    && forall l | l in Known(e.schemas) && TargetIsActive(graph, active, l) :: l in e.recursive
  }

  lemma FinishedIsExpansion(graph: Graph, active: set<Location>, starts: iset<Location>, e: Expansion)
    requires Progress(graph, active, starts, [], e.schemas)
    requires DistinctKeys(e.schemas) && ReportsCuts(graph, active, e.schemas, e.recursive)
    ensures IsExpansion(graph, active, starts, e)
  {
    EmptyWorklistIsClosed(graph, active, starts, e.schemas);
    CutsAreRecursive(graph, active, Known([]) + Known(e.schemas), e.schemas, e.recursive);
  }

  lemma TopOfWorklist(graph: Graph, active: set<Location>, starts: iset<Location>, front: seq<Located>, item: Located,
                      expanded: seq<Located>)
    requires Progress(graph, active, starts, front + [item], expanded)
    ensures item.Within(graph) && PathLeads(graph, active, item) && Reached(graph, active, starts, item.location)
    ensures AllWithin(graph, front)
  {
    assert item == (front + [item])[|front|] && item in front + [item];
    assert forall i | 0 <= i < |front| :: (front + [item])[i] == front[i];
  }

  lemma SeenWithOneMore(seen: set<(Location, set<Membership>)>, expanded: seq<Located>, item: Located)
    requires SeenIs(seen, expanded) && item.Key() !in seen
    ensures SeenIs(seen + {item.Key()}, expanded + [item])
  {
    hide Located.Key;
    assert item in expanded + [item];
    assert forall e | e in expanded :: e in expanded + [item];
    assert forall i | 0 <= i < |expanded| :: expanded[i] in expanded;
  }

  lemma SeenIsKnown(seen: set<(Location, set<Membership>)>, expanded: seq<Located>, item: Located)
    requires SeenIs(seen, expanded) && item.Key() in seen
    ensures item.location in Known(expanded)
  {
    var e :| e in expanded && e.Key() == item.Key();
  }

  lemma CutsWithOneMore(graph: Graph, active: set<Location>, expanded: seq<Located>, item: Located, recursive: set<Location>)
    requires item.location in graph && ReportsCuts(graph, active, expanded, recursive)
    ensures ReportsCuts(graph, active, expanded + [item],
                        if Cut(graph, active, item) then recursive + {item.location} else recursive)
  {
    hide Cut;
    assert item in expanded + [item];
    assert forall e | e in expanded :: e in expanded + [item];
  }

  lemma UsesWithOneMore(graph: Graph, before: set<Bytes>, expanded: seq<Located>, item: Located, used: set<Bytes>,
                        linked: set<Bytes>)
    requires item.location in graph && UsesLinked(graph, before, expanded, used)
    requires forall resource :: resource in linked <==> LeadsInto(graph, item.location, resource)
    ensures UsesLinked(graph, before, expanded + [item], used + linked)
  {
    forall resource ensures resource in used + linked <==> resource in before || UsedBy(graph, expanded + [item], resource) {
      UsedByOneMore(graph, expanded, item, resource);
    }
  }

  ghost predicate Answers(graph: Graph, active: set<Location>, starts: iset<Location>,
                          r: Result<Expansion, ExpansionError>) {
    match r
    case Ok(e) => IsExpansion(graph, active, starts, e)
    case Err(UnsupportedReference(l)) => Reached(graph, active, starts, l) && l in graph && !Resolves(graph, l)
    case Err(TraversalExceeded(_, _)) => true
  }

  /** Unless the traversal limit bites, expansion succeeds exactly when every applicable schema resolves. */
  lemma ExpansionDecides(graph: Graph, active: set<Location>, starts: iset<Location>, r: Result<Expansion, ExpansionError>)
    requires Answers(graph, active, starts, r) && !(r.Err? && r.error.TraversalExceeded?)
    ensures r.Ok? <==> AllResolve(graph, active, starts)
  {
  }
}
