/** Which conjunctions an expanded schema is a member of: those it was reached through, and all of those. */
module Conjunctions {
  import opened Bytes
  import opened References
  import opened ReferenceCycles

  /** The membership tells the truth about a schema: it was reached through that branch, or through that `allOf`. */
  ghost predicate Explains(graph: Graph, active: set<Location>, m: Membership, l: Location) {
    && m.origin in graph && graph[m.origin].allOf.Some?
    && match m.branch
       case Some(i) =>
         && i < |graph[m.origin].allOf.value| && graph[m.origin].allOf.value[i].To?
         && Reached(graph, active, iset{graph[m.origin].allOf.value[i].target}, l)
       case None => Reached(graph, active, iset{m.origin}, l)
  }

  /** Every membership was carried in, or tells the truth. */
  ghost predicate TruthfulItem(graph: Graph, active: set<Location>, carried: iset<Membership>, item: Located) {
    forall m | m in item.memberships :: m in carried || Explains(graph, active, m, item.location)
  }

  ghost predicate Truthful(graph: Graph, active: set<Location>, carried: iset<Membership>, items: seq<Located>) {
    forall item | item in items :: TruthfulItem(graph, active, carried, item)
  }

  lemma ExplainedFurther(graph: Graph, active: set<Location>, m: Membership, l: Location, next: Location)
    requires Explains(graph, active, m, l) && Reached(graph, active, iset{l}, next)
    ensures Explains(graph, active, m, next)
  {
    hide Reached;
    match m.branch
    case Some(i) => ReachedThrough(graph, active, iset{graph[m.origin].allOf.value[i].target}, l, next);
    case None => ReachedThrough(graph, active, iset{m.origin}, l, next);
  }

  lemma PoppedIsTruthful(graph: Graph, active: set<Location>, carried: iset<Membership>, item: Located)
    requires item.location in graph && TruthfulItem(graph, active, carried, item)
    ensures TruthfulItem(graph, active, carried, Popped(graph, item))
    ensures graph[item.location].allOf.Some? ==> Membership(item.location, None) in Popped(graph, item).memberships
  {
    ReachesItself(graph, active, item.location);
    hide Reached;
  }

  lemma ChildIsTruthful(graph: Graph, active: set<Location>, carried: iset<Membership>, item: Located, child: Located)
    requires WellFormed(graph) && item.Within(graph) && PathLeads(graph, active, item)
    requires TruthfulItem(graph, active, carried, item) && child in Children(graph, active, item)
    ensures TruthfulItem(graph, active, carried, child)
  {
    ChildIsLinked(graph, active, item, child);
    ChildrenLead(graph, active, item);
    ReachesItself(graph, active, child.location);
    assert Reached(graph, active, iset{item.location}, child.location);
    hide Reached, PathLeads, Children, WellFormed, Known, AllChildrenOf;
    forall m | m in child.memberships ensures m in carried || Explains(graph, active, m, child.location) {
      if m in item.memberships && m !in carried {
        ExplainedFurther(graph, active, m, item.location, child.location);
      }
    }
  }

  // ---------------------------------------------------------------------------- completeness

  /** The schema carries everything the other one does, and one membership more. */
  ghost predicate Carries(item: Located, former: Located, m: Membership) {
    m in item.memberships && forall n | n in former.memberships :: n in item.memberships
  }

  /** Every branch of an expanded schema is expanded as that branch, and the target of a followed reference in the same
  conjunctions; a schema with an `allOf` is a member of it. */
  ghost predicate CompleteAt(graph: Graph, active: set<Location>, expanded: seq<Located>, e: Located) {
    && e.location in graph
    && (graph[e.location].allOf.Some? ==>
          && Membership(e.location, None) in e.memberships
          && forall i | 0 <= i < |graph[e.location].allOf.value| && graph[e.location].allOf.value[i].To? ::
               exists f :: f in expanded && f.location == graph[e.location].allOf.value[i].target
                        && Carries(f, e, Membership(e.location, Some(i))))
    && match graph[e.location].reference
       case Some(To(target)) =>
         target !in active && target !in e.path ==>
           exists f :: f in expanded && f.location == target && forall n | n in e.memberships :: n in f.memberships
       case _ => true
  }

  lemma {:induction false} BranchIsPushed(item: Located, branches: seq<Link>, i: nat)
    requires i < |branches| && branches[i].To?
    ensures BranchItem(item, branches[i].target, i) in BranchItems(item, branches)
    decreases |branches|
  {
    if i < |branches| - 1 {
      BranchIsPushed(item, branches[..|branches| - 1], i);
    }
  }

  /** What a schema pushed was expanded, with all its memberships. */
  lemma PushedIsExpanded(graph: Graph, active: set<Location>, expanded: seq<Located>, e: nat, child: Located)
    returns (f: Located)
    requires e < |expanded| && Shut(graph, active, expanded, e) && expanded[e].location in graph
    requires child in Children(graph, active, expanded[e])
    ensures f in expanded && f.location == child.location && forall n | n in child.memberships :: n in f.memberships
  {
    var end: nat :| e < end <= |expanded| && Covers(graph, active, expanded, e, end, []);
    assert Under(graph, active, expanded[e].location, expanded[e], expanded[..end], []);
    var z := ChildIsStepped(graph, active, expanded, e, end, child);
    f := expanded[z];
    VisitKeeps(graph, child);
    assert f.Key().1 == VisitKey(graph, child).1;
  }

  lemma ExpandedIsComplete(graph: Graph, active: set<Location>, expanded: seq<Located>, e: nat)
    requires e < |expanded| && Shut(graph, active, expanded, e) && expanded[e].location in graph
    requires graph[expanded[e].location].allOf.Some? ==> Membership(expanded[e].location, None) in expanded[e].memberships
    ensures CompleteAt(graph, active, expanded, expanded[e])
  {
    var item := expanded[e];
    hide Shut;
    if graph[item.location].allOf.Some? {
      var branches := graph[item.location].allOf.value;
      assert branches == Branches(graph, item.location);
      forall i | 0 <= i < |branches| && branches[i].To?
        ensures exists f :: f in expanded && f.location == branches[i].target
                         && Carries(f, item, Membership(item.location, Some(i)))
      {
        BranchIsPushed(item, branches, i);
        var f := PushedIsExpanded(graph, active, expanded, e, BranchItem(item, branches[i].target, i));
        assert Carries(f, item, Membership(item.location, Some(i)));
      }
    }
    var followed := Followed(graph, active, item.location, item.path);
    if followed.Some? {
      var f := PushedIsExpanded(graph, active, expanded, e, ReferenceItems(graph, active, item)[0]);
      assert forall n | n in item.memberships :: n in f.memberships;
    }
  }

  ghost function CarriedBy(schemas: seq<Located>): iset<Membership> {
    iset item, m | item in schemas && m in item.memberships :: m
  }

  /** The schema is among the items with all its memberships. */
  ghost predicate Kept(items: seq<Located>, s: Located) {
    exists f :: f in items && f.location == s.location && forall n | n in s.memberships :: n in f.memberships
  }

  /** The expanded schemas carry what the given ones do, true memberships, and every membership there is to carry. */
  ghost predicate Conjoined(graph: Graph, active: set<Location>, schemas: seq<Located>, expanded: seq<Located>) {
    && Truthful(graph, active, CarriedBy(schemas), expanded)
    && (forall s | s in schemas :: Kept(expanded, s))
    && forall e | e in expanded :: CompleteAt(graph, active, expanded, e)
  }

  /** What the loop keeps about memberships. */
  ghost predicate Belonging(graph: Graph, active: set<Location>, schemas: seq<Located>, pending: seq<Located>,
                            expanded: seq<Located>) {
    && Truthful(graph, active, CarriedBy(schemas), pending) && Truthful(graph, active, CarriedBy(schemas), expanded)
    && NamesOwn(graph, expanded) && forall s | s in schemas :: Kept(pending + expanded, s)
  }

  ghost predicate NamesOwn(graph: Graph, expanded: seq<Located>) {
    forall e | e in expanded && e.location in graph && graph[e.location].allOf.Some? ::
      Membership(e.location, None) in e.memberships
  }

  lemma StartBelongs(graph: Graph, active: set<Location>, schemas: seq<Located>)
    ensures Belonging(graph, active, schemas, schemas, [])
  {
    forall s | s in schemas ensures Kept(schemas + [], s) {
      assert s in schemas + [];
    }
  }

  lemma SkippingBelongs(graph: Graph, active: set<Location>, schemas: seq<Located>, front: seq<Located>, item: Located,
                        expanded: seq<Located>)
    requires Belonging(graph, active, schemas, front + [item], expanded)
    requires item.location in graph && exists e :: e in expanded && e.Key() == Popped(graph, item).Key()
    ensures Belonging(graph, active, schemas, front, expanded)
  {
    var e :| e in expanded && e.Key() == Popped(graph, item).Key();
    assert forall n | n in item.memberships :: n in Popped(graph, item).Key().1;
    assert forall n :: n in e.Key().1 <==> n in e.memberships;
    hide TruthfulItem, Located.Key, Popped;
    forall s | s in schemas ensures Kept(front + expanded, s) {
      var f :| f in front + [item] + expanded && f.location == s.location
               && forall n | n in s.memberships :: n in f.memberships;
      var g := if f in front + expanded then f else e;
      assert g in front + expanded;
    }
  }

  lemma AdvancingBelongs(graph: Graph, active: set<Location>, schemas: seq<Located>, front: seq<Located>, item: Located,
                         expanded: seq<Located>)
    requires WellFormed(graph) && item.Within(graph) && PathLeads(graph, active, item)
    requires Belonging(graph, active, schemas, front + [item], expanded)
    ensures Popped(graph, item).location == item.location
    ensures Belonging(graph, active, schemas, front + Children(graph, active, Popped(graph, item)),
                      expanded + [Popped(graph, item)])
  {
    var popped, carried := Popped(graph, item), CarriedBy(schemas);
    assert item in front + [item] && popped.location == item.location && popped.path == item.path;
    assert PathLeads(graph, active, popped) && popped.Within(graph);
    assert forall n | n in item.memberships :: n in popped.memberships;
    PoppedIsTruthful(graph, active, carried, item);
    hide TruthfulItem, Popped, Children, WellFormed, PathLeads, Located.Within, CarriedBy;
    forall c | c in Children(graph, active, popped) ensures TruthfulItem(graph, active, carried, c) {
      ChildIsTruthful(graph, active, carried, popped, c);
    }
    forall s | s in schemas ensures Kept(front + Children(graph, active, popped) + (expanded + [popped]), s) {
      var f :| f in front + [item] + expanded && f.location == s.location
               && forall n | n in s.memberships :: n in f.memberships;
      var g := if f == item then popped else f;
      assert g in front + Children(graph, active, popped) + (expanded + [popped]);
    }
  }

  lemma FinishedIsConjoined(graph: Graph, active: set<Location>, schemas: seq<Located>, expanded: seq<Located>)
    requires Belonging(graph, active, schemas, [], expanded)
    requires forall e: nat | e < |expanded| :: Shut(graph, active, expanded, e)
    requires forall e | e in expanded :: e.location in graph
    ensures Conjoined(graph, active, schemas, expanded)
  {
    hide CompleteAt, Shut, TruthfulItem;
    assert [] + expanded == expanded;
    forall e | e in expanded ensures CompleteAt(graph, active, expanded, e) {
      var x :| 0 <= x < |expanded| && expanded[x] == e;
      ExpandedIsComplete(graph, active, expanded, x);
    }
  }
}
