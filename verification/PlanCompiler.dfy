/**
 The plan compiler: deadline offsets accumulated along a blueprint list, the
 edges it emits, and the structural check (Kahn's algorithm) every plan passes.
 */
module PlanCompiler {
  import opened Prelude

  /** A capability as routed: its id and the duration its budget allows. */
  datatype Capability = Capability(capabilityId: string, maxDurationMs: nat)

  /** The authority checkpoint has no capability. */
  datatype Blueprint = Blueprint(
    nodeId: string, capability: Option<Capability>, dependencyIds: seq<string>, inputRefs: seq<string>)

  /** A compiled node keeps its blueprint's columns; the structural check reads nothing else. */
  datatype PlanNode = PlanNode(blueprint: Blueprint, deadlineOffsetMs: nat)

  datatype Edge = Edge(fromNodeId: string, toNodeId: string)

  datatype Plan = Plan(nodes: seq<PlanNode>, edges: seq<Edge>)

  datatype PlanError =
    | DuplicateNodeId
    | UnknownDependency(nodeId: string, dependencyId: string)
    | UnknownInput(nodeId: string, inputRef: string)
    | DependencyCycle(involved: seq<string>)
    | DuplicateEdge

  type Dependencies = map<string, set<string>>

  // ---------------------------------------------------------------------
  // What a well-formed plan is
  // ---------------------------------------------------------------------

  predicate Distinct(s: seq<string>) {
    forall i, j | 0 <= i < j < |s| :: s[i] != s[j]
  }

  function NodeIds(nodes: seq<Blueprint>): (ids: seq<string>)
    ensures |ids| == |nodes| && forall i | 0 <= i < |nodes| :: ids[i] == nodes[i].nodeId
  {
    seq(|nodes|, i requires 0 <= i < |nodes| => nodes[i].nodeId)
  }

  /** The text an edge is compared by. */
  function EdgeKey(e: Edge): string {
    e.fromNodeId + "->" + e.toNodeId
  }

  function EdgeKeys(edges: seq<Edge>): (keys: seq<string>)
    ensures |keys| == |edges| && forall i | 0 <= i < |edges| :: keys[i] == EdgeKey(edges[i])
  {
    seq(|edges|, i requires 0 <= i < |edges| => EdgeKey(edges[i]))
  }

  /** Where the ids edges come from hold no hyphen, the text tells edges apart. */
  lemma EdgeKeysTell(e: Edge, f: Edge)
    requires '-' !in e.fromNodeId && '-' !in f.fromNodeId
    ensures EdgeKey(e) == EdgeKey(f) <==> e == f
  {
    var k, l := EdgeKey(e), EdgeKey(f);
    var m, n := |e.fromNodeId|, |f.fromNodeId|;
    if k == l {
      assert k[m] == '-' && l[n] == '-';
      assert forall i | 0 <= i < m :: k[i] == e.fromNodeId[i];
      assert forall i | 0 <= i < n :: l[i] == f.fromNodeId[i];
      assert e.fromNodeId == k[..m] && f.fromNodeId == l[..n];
      assert e.toNodeId == k[m + 2..] && f.toNodeId == l[n + 2..];
    }
  }

  /** Each node's dependencies, as a set; a later node replaces an earlier one of the same id. */
  function DependencySets(nodes: seq<Blueprint>): (deps: Dependencies)
    ensures deps.Keys == Elements(NodeIds(nodes))
  {
    if nodes == [] then map[]
    else
      var front, last := nodes[..|nodes| - 1], nodes[|nodes| - 1];
      assert NodeIds(nodes) == NodeIds(front) + [last.nodeId];
      DependencySets(front)[last.nodeId := Elements(last.dependencyIds)]
  }

  lemma {:induction false} DependencySetOf(nodes: seq<Blueprint>, i: nat)
    requires Distinct(NodeIds(nodes)) && i < |nodes|
    ensures nodes[i].nodeId in DependencySets(nodes)
    ensures DependencySets(nodes)[nodes[i].nodeId] == Elements(nodes[i].dependencyIds)
  {
    var front, last := nodes[..|nodes| - 1], nodes[|nodes| - 1];
    if i < |front| {
      assert forall k | 0 <= k < |front| :: NodeIds(front)[k] == NodeIds(nodes)[k];
      DependencySetOf(front, i);
      assert NodeIds(nodes)[i] != NodeIds(nodes)[|front|];
    }
  }

  ghost predicate RefsKnown(nodes: seq<Blueprint>) {
    forall n | n in nodes :: (forall d | d in n.dependencyIds + n.inputRefs :: d in NodeIds(nodes))
  }

  /** `order` lists every node once, each after everything it depends on. */
  ghost predicate Schedules(order: seq<string>, deps: Dependencies) {
    && Elements(order) == deps.Keys
    && StartsSchedule(order, deps)
  }

  ghost predicate StartsSchedule(order: seq<string>, deps: Dependencies) {
    && Distinct(order) && Elements(order) <= deps.Keys
    && forall j | 0 <= j < |order| :: deps[order[j]] <= Elements(order[..j])
  }

  ghost predicate Schedulable(deps: Dependencies) {
    exists order :: Schedules(order, deps)
  }

  ghost predicate Cyclic(deps: Dependencies) {
    exists c :: Cycle(c, deps)
  }

  /** A closed walk along dependencies. */
  ghost predicate Cycle(c: seq<string>, deps: Dependencies) {
    && |c| >= 2 && c[0] == c[|c| - 1]
    && Walk(c, deps)
  }

  ghost predicate Walk(c: seq<string>, deps: Dependencies) {
    && (forall i | 0 <= i < |c| :: c[i] in deps)
    && (forall i | 0 <= i < |c| - 1 :: c[i + 1] in deps[c[i]])
  }

  /** A set of nodes each of which waits for another one of the set. */
  ghost predicate Stuck(s: set<string>, deps: Dependencies) {
    s <= deps.Keys && forall id | id in s :: deps[id] * s != {}
  }

  /** Every set of nodes waiting for each other lies in `s`, which is one. */
  ghost predicate LargestStuck(s: set<string>, deps: Dependencies) {
    Stuck(s, deps) && forall other | Stuck(other, deps) :: other <= s
  }

  predicate Closed(deps: Dependencies) {
    forall id | id in deps :: deps[id] <= deps.Keys
  }

  ghost predicate WellFormed(nodes: seq<Blueprint>, edges: seq<Edge>) {
    && Distinct(NodeIds(nodes)) && RefsKnown(nodes) && Distinct(EdgeKeys(edges))
    && Schedulable(DependencySets(nodes))
  }

  // ---------------------------------------------------------------------
  // Schedules, cycles and stuck sets
  // ---------------------------------------------------------------------

  lemma ServedIsNotStuck(id: string, deps: Dependencies, s: set<string>, done: set<string>)
    requires Stuck(s, deps) && id in deps && deps[id] <= done && done !! s
    ensures id !in s
  {
    forall d | d in deps[id] ensures d !in s {
      assert d in done;
    }
    assert deps[id] * s == {};
  }

  lemma {:induction false} SchedulesAvoidStuck(order: seq<string>, deps: Dependencies, s: set<string>)
    requires StartsSchedule(order, deps) && Stuck(s, deps)
    ensures Elements(order) !! s
  {
    if order != [] {
      var front, last := order[..|order| - 1], order[|order| - 1];
      assert forall j | 0 <= j < |front| :: front[..j] == order[..j];
      SchedulesAvoidStuck(front, deps, s);
      assert deps[last] <= Elements(front);
      ServedIsNotStuck(last, deps, s, Elements(front));
      assert Elements(order) == Elements(front) + {last};
    }
  }

  lemma CyclesAreStuck(c: seq<string>, deps: Dependencies)
    requires Cycle(c, deps)
    ensures Stuck(Elements(c), deps)
  {
    var s := Elements(c);
    forall id | id in s ensures deps[id] * s != {} {
      var i :| 0 <= i < |c| && c[i] == id;
      var next := if i < |c| - 1 then c[i + 1] else c[1];
      assert next in deps[id] * s;
    }
  }

  lemma {:induction false} LongWalk(s: set<string>, deps: Dependencies, n: nat) returns (w: seq<string>)
    requires Stuck(s, deps) && s != {}
    ensures |w| == n + 1 && Elements(w) <= s && Walk(w, deps)
  {
    if n == 0 {
      var id :| id in s;
      w := [id];
    } else {
      var front := LongWalk(s, deps, n - 1);
      assert front[n - 1] in Elements(front);
      var next :| next in deps[front[n - 1]] * s;
      w := front + [next];
    }
  }

  lemma {:induction false} DistinctFits(w: seq<string>, s: set<string>)
    requires Elements(w) <= s && Distinct(w)
    ensures |w| <= |s|
  {
    if w != [] {
      var front, last := w[..|w| - 1], w[|w| - 1];
      assert last in Elements(w);
      assert last !in Elements(front);
      DistinctFits(front, s - {last});
    }
  }

  lemma WalkBetween(w: seq<string>, deps: Dependencies, i: nat, j: nat) returns (c: seq<string>)
    requires Walk(w, deps) && i < j < |w| && w[i] == w[j]
    ensures Cycle(c, deps) && Elements(c) <= Elements(w)
  {
    c := w[i..j + 1];
    assert c[0] == w[i] && c[|c| - 1] == w[j];
    forall k | 0 <= k < |c| - 1 ensures c[k + 1] in deps[c[k]] {
      assert c[k] == w[i + k] && c[k + 1] == w[i + k + 1];
    }
  }

  /** Nodes that wait for each other hold a cycle. */
  lemma StuckHoldsCycle(s: set<string>, deps: Dependencies) returns (c: seq<string>)
    requires Stuck(s, deps) && s != {}
    ensures Cycle(c, deps) && Elements(c) <= s
  {
    var w := LongWalk(s, deps, |s|);
    if Distinct(w) {
      DistinctFits(w, s);
      assert false;
    }
    var i, j :| 0 <= i < j < |w| && w[i] == w[j];
    c := WalkBetween(w, deps, i, j);
  }

  // ---------------------------------------------------------------------
  // The structural check
  // ---------------------------------------------------------------------

  /** What one round of the check removes: the first id, in string order, that waits for nothing. */
  method FirstReady(pending: Dependencies) returns (ready: Option<string>)
    ensures ready.Some? ==>
      && ready.value in pending && pending[ready.value] == {}
      && forall id | id in pending && pending[id] == {} :: id == ready.value || Less(ready.value, id)
    ensures ready.None? ==> forall id | id in pending :: pending[id] != {}
  {
    var ids := SortedIds(pending.Keys);
    forall id | id in pending ensures id in ids {
      assert id in Elements(ids);
    }
    assert forall k | 0 <= k < |ids| :: ids[k] in Elements(ids);
    for i := 0 to |ids|
      invariant forall k | 0 <= k < i :: pending[ids[k]] != {}
    {
      if pending[ids[i]] == {} {
        return Some(ids[i]);
      }
    }
    return None;
  }

  /** What is pending, and what has been removed from each pending node's dependencies. */
  ghost predicate Removing(deps: Dependencies, pending: Dependencies, order: seq<string>) {
    && pending.Keys <= deps.Keys && Elements(order) == deps.Keys - pending.Keys
    && StartsSchedule(order, deps)
    && forall id | id in pending :: pending[id] == deps[id] - Elements(order)
  }

  lemma RemovingOne(deps: Dependencies, pending: Dependencies, order: seq<string>, id: string)
    requires Removing(deps, pending, order) && id in pending && pending[id] == {}
    ensures Removing(deps, map r | r in pending && r != id :: pending[r] - {id}, order + [id])
  {
    forall d | d in deps[id] ensures d in Elements(order) {
      assert d !in deps[id] - Elements(order);
    }
    ExtendSchedule(order, deps, id);
  }

  /**
   Kahn's algorithm: what it cannot remove is the largest set of nodes waiting
   for each other, whichever ready node each round takes; it removes
   everything exactly when the nodes can be scheduled, which is exactly when
   no dependency cycle exists; and the removal order is such a schedule.
   */
  method RemoveReady(deps: Dependencies) returns (pending: Dependencies, ghost order: seq<string>)
    requires Closed(deps)
    ensures StartsSchedule(order, deps) && Elements(order) == deps.Keys - pending.Keys
    ensures LargestStuck(pending.Keys, deps)
    ensures pending.Keys == {} <==> Schedulable(deps)
    ensures pending.Keys == {} <==> !Cyclic(deps)
  {
    pending, order := deps, [];
    var progressed := true;
    assert Removing(deps, pending, order);
    while |pending| > 0 && progressed
      invariant Removing(deps, pending, order)
      invariant progressed || Stalled(pending)
      decreases |pending|, progressed
    {
      pending, progressed, order := RemoveOne(deps, pending, order);
    }
    KahnOutcome(deps, pending, order);
  }

  ghost predicate Stalled(pending: Dependencies) {
    forall id | id in pending :: pending[id] != {}
  }

  /** One round: removes the first ready node, also from what the others wait for. */
  method RemoveOne(deps: Dependencies, pending: Dependencies, ghost order: seq<string>)
    returns (left: Dependencies, progressed: bool, ghost longer: seq<string>)
    requires Removing(deps, pending, order)
    ensures Removing(deps, left, longer)
    ensures progressed ==> |left| < |pending|
    ensures !progressed ==> left == pending && Stalled(pending)
  {
    left, progressed, longer := pending, false, order;
    var ready := FirstReady(pending);
    if ready.Some? {
      RemovingOne(deps, pending, order, ready.value);
      left := map id | id in pending && id != ready.value :: pending[id] - {ready.value};
      assert left.Keys == pending.Keys - {ready.value};
      longer := order + [ready.value];
      progressed := true;
    }
  }

  lemma KahnOutcome(deps: Dependencies, pending: Dependencies, order: seq<string>)
    requires Closed(deps)
    requires Removing(deps, pending, order) && Stalled(pending)
    ensures LargestStuck(pending.Keys, deps)
    ensures pending.Keys == {} <==> Schedulable(deps)
    ensures pending.Keys == {} <==> !Cyclic(deps)
  {
    LeftoverIsLargestStuck(deps, pending, order);
    if pending.Keys == {} {
      assert Schedules(order, deps);
      ScheduledHasNoCycle(order, deps);
    } else {
      StuckIsUnschedulable(pending.Keys, deps);
    }
  }

  lemma ExtendSchedule(order: seq<string>, deps: Dependencies, id: string)
    requires StartsSchedule(order, deps) && id in deps && id !in Elements(order) && deps[id] <= Elements(order)
    ensures StartsSchedule(order + [id], deps) && Elements(order + [id]) == Elements(order) + {id}
  {
    var longer := order + [id];
    assert Elements(longer) == Elements(order) + {id};
    assert forall j | 0 <= j < |order| :: longer[..j] == order[..j] && longer[j] in Elements(order);
    assert longer[..|order|] == order;
  }

  lemma LeftoverIsLargestStuck(deps: Dependencies, pending: Dependencies, order: seq<string>)
    requires Closed(deps)
    requires Removing(deps, pending, order) && Stalled(pending)
    ensures LargestStuck(pending.Keys, deps)
  {
    forall id | id in pending ensures deps[id] * pending.Keys != {} {
      var d :| d in pending[id];
      assert d in deps[id] * pending.Keys;
    }
    forall s | Stuck(s, deps) ensures s <= pending.Keys {
      SchedulesAvoidStuck(order, deps, s);
    }
  }

  lemma ScheduledHasNoCycle(order: seq<string>, deps: Dependencies)
    requires Schedules(order, deps)
    ensures !Cyclic(deps)
  {
    forall c | Cycle(c, deps) ensures false {
      CyclesAreStuck(c, deps);
      assert c[0] in Elements(c);
      SchedulesAvoidStuck(order, deps, Elements(c));
    }
  }

  lemma StuckIsUnschedulable(s: set<string>, deps: Dependencies)
    requires Stuck(s, deps) && s != {}
    ensures !Schedulable(deps) && Cyclic(deps)
  {
    forall order | Schedules(order, deps) ensures false {
      SchedulesAvoidStuck(order, deps, s);
    }
    var c := StuckHoldsCycle(s, deps);
  }

  lemma {:induction false} SizeIsDistinctness(s: seq<string>)
    ensures |Elements(s)| == |s| <==> Distinct(s)
    ensures |Elements(s)| <= |s|
  {
    if s != [] {
      var front, last := s[..|s| - 1], s[|s| - 1];
      SizeIsDistinctness(front);
      assert Elements(s) == Elements(front) + {last};
      if last in Elements(front) {
        assert Elements(s) == Elements(front);
      }
    }
  }

  predicate AllIn(refs: seq<string>, ids: set<string>) {
    forall r | r in refs :: r in ids
  }

  /** The error names the first unknown reference: node by node, dependencies before inputs, each in order. */
  ghost predicate FirstUnknown(nodes: seq<Blueprint>, ids: set<string>, error: PlanError) {
    exists i | 0 <= i < |nodes| ::
      && (forall n | n in nodes[..i] :: AllIn(n.dependencyIds, ids) && AllIn(n.inputRefs, ids))
      && FirstUnknownOf(nodes[i], ids, error)
  }

  ghost predicate FirstUnknownOf(node: Blueprint, ids: set<string>, error: PlanError) {
    || (exists k | 0 <= k < |node.dependencyIds| ::
          && AllIn(node.dependencyIds[..k], ids) && node.dependencyIds[k] !in ids
          && error == UnknownDependency(node.nodeId, node.dependencyIds[k]))
    || (exists k | 0 <= k < |node.inputRefs| ::
          && AllIn(node.dependencyIds, ids) && AllIn(node.inputRefs[..k], ids) && node.inputRefs[k] !in ids
          && error == UnknownInput(node.nodeId, node.inputRefs[k]))
  }

  method UnknownReferenceOf(node: Blueprint, ids: set<string>) returns (error: Option<PlanError>)
    ensures error.None? <==> AllIn(node.dependencyIds, ids) && AllIn(node.inputRefs, ids)
    ensures error.Some? ==> FirstUnknownOf(node, ids, error.value)
  {
    for k := 0 to |node.dependencyIds|
      invariant AllIn(node.dependencyIds[..k], ids)
    {
      if node.dependencyIds[k] !in ids {
        return Some(UnknownDependency(node.nodeId, node.dependencyIds[k]));
      }
    }
    for k := 0 to |node.inputRefs|
      invariant AllIn(node.inputRefs[..k], ids)
    {
      if node.inputRefs[k] !in ids {
        return Some(UnknownInput(node.nodeId, node.inputRefs[k]));
      }
    }
    return None;
  }

  /** Looks every reference of every node up, in order. */
  method UnknownReference(nodes: seq<Blueprint>, ids: set<string>) returns (error: Option<PlanError>)
    ensures error.None? <==> forall n | n in nodes :: AllIn(n.dependencyIds, ids) && AllIn(n.inputRefs, ids)
    ensures error.Some? ==> FirstUnknown(nodes, ids, error.value)
  {
    for i := 0 to |nodes|
      invariant forall n | n in nodes[..i] :: AllIn(n.dependencyIds, ids) && AllIn(n.inputRefs, ids)
    {
      error := UnknownReferenceOf(nodes[i], ids);
      if error.Some? {
        assert nodes[i] in nodes;
        return;
      }
      assert nodes[..i + 1] == nodes[..i] + [nodes[i]];
    }
    return None;
  }

  lemma KnownWhenAllIn(nodes: seq<Blueprint>)
    ensures RefsKnown(nodes) <==>
      forall n | n in nodes ::
        AllIn(n.dependencyIds, Elements(NodeIds(nodes))) && AllIn(n.inputRefs, Elements(NodeIds(nodes)))
  {
    if RefsKnown(nodes) {
      forall n | n in nodes
        ensures AllIn(n.dependencyIds, Elements(NodeIds(nodes))) && AllIn(n.inputRefs, Elements(NodeIds(nodes)))
      {
        forall r | r in n.dependencyIds || r in n.inputRefs ensures r in Elements(NodeIds(nodes)) {
          assert r in n.dependencyIds + n.inputRefs;
        }
      }
    }
  }

  lemma KnownRefsAreClosed(nodes: seq<Blueprint>)
    requires Distinct(NodeIds(nodes)) && RefsKnown(nodes)
    ensures Closed(DependencySets(nodes))
  {
    var deps := DependencySets(nodes);
    forall id | id in deps ensures deps[id] <= deps.Keys {
      assert id in Elements(NodeIds(nodes));
      var i :| 0 <= i < |nodes| && NodeIds(nodes)[i] == id;
      DependencySetOf(nodes, i);
      forall d | d in deps[id] ensures d in deps.Keys {
        assert nodes[i] in nodes && d in nodes[i].dependencyIds + nodes[i].inputRefs;
      }
    }
  }

  /** Accepts exactly the well-formed plans; each error says which condition failed first. */
  method AssertPlanIsWellFormed(nodes: seq<Blueprint>, edges: seq<Edge>) returns (error: Option<PlanError>)
    ensures error.None? <==> WellFormed(nodes, edges)
    ensures error == Some(DuplicateNodeId) <==> !Distinct(NodeIds(nodes))
    ensures (error.Some? && error.value.DependencyCycle?) <==>
      (Distinct(NodeIds(nodes)) && RefsKnown(nodes) && Cyclic(DependencySets(nodes)))
    ensures error.Some? && error.value.DependencyCycle? ==>
      && Ascending(error.value.involved)
      && (exists c :: Cycle(c, DependencySets(nodes)) && Elements(c) <= Elements(error.value.involved))
      && LargestStuck(Elements(error.value.involved), DependencySets(nodes))
    ensures Distinct(NodeIds(nodes)) && !RefsKnown(nodes) ==>
      error.Some? && FirstUnknown(nodes, Elements(NodeIds(nodes)), error.value)
    ensures error == Some(DuplicateEdge) <==>
      && Distinct(NodeIds(nodes)) && RefsKnown(nodes) && Schedulable(DependencySets(nodes))
      && !Distinct(EdgeKeys(edges))
  {
    var ids := Elements(NodeIds(nodes));
    SizeIsDistinctness(NodeIds(nodes));
    if |ids| != |nodes| {
      return Some(DuplicateNodeId);
    }
    error := UnknownReference(nodes, ids);
    KnownWhenAllIn(nodes);
    if error.Some? {
      return;
    }
    KnownRefsAreClosed(nodes);
    var pending, order := RemoveReady(DependencySets(nodes));
    if |pending| > 0 {
      var involved := SortedIds(pending.Keys);
      ghost var c := StuckHoldsCycle(pending.Keys, DependencySets(nodes));
      return Some(DependencyCycle(involved));
    }
    SizeIsDistinctness(EdgeKeys(edges));
    if |Elements(EdgeKeys(edges))| != |edges| {
      return Some(DuplicateEdge);
    }
    return None;
  }

  // ---------------------------------------------------------------------
  // Deadline offsets and edges
  // ---------------------------------------------------------------------

  /** A node's own duration; a checkpoint has none. */
  function Weight(b: Blueprint): nat {
    if b.capability.None? then 0 else b.capability.value.maxDurationMs
  }

  /** Only a node with a capability takes time: exactly its budget's. */
  lemma WeightTells(b: Blueprint)
    ensures b.capability == None ==> Weight(b) == 0
    ensures forall c | b.capability == Some(c) :: Weight(b) == c.maxDurationMs
  {
  }

  /** The deepest offset among `ids`, an id without one counting as 0. */
  function Deepest(ids: seq<string>, offsets: map<string, nat>): nat {
    if ids == [] then 0
    else
      var before, last := Deepest(ids[..|ids| - 1], offsets), ids[|ids| - 1];
      if last in offsets && offsets[last] > before then offsets[last] else before
  }

  lemma {:induction false} DeepestIsMaximum(ids: seq<string>, offsets: map<string, nat>)
    ensures forall id | id in ids && id in offsets :: offsets[id] <= Deepest(ids, offsets)
    ensures Deepest(ids, offsets) == 0
            || exists id | id in ids :: id in offsets && offsets[id] == Deepest(ids, offsets)
  {
    if ids != [] {
      DeepestIsMaximum(ids[..|ids| - 1], offsets);
      assert ids == ids[..|ids| - 1] + [ids[|ids| - 1]];
    }
  }

  function Offsets(bs: seq<Blueprint>): (offsets: map<string, nat>)
    ensures offsets.Keys == Elements(NodeIds(bs))
  {
    if bs == [] then map[]
    else
      var front, b := bs[..|bs| - 1], bs[|bs| - 1];
      assert NodeIds(bs) == NodeIds(front) + [b.nodeId];
      Offsets(front)[b.nodeId := Deepest(b.dependencyIds, Offsets(front)) + Weight(b)]
  }

  /** The offset given to the i-th node. */
  function OffsetAt(bs: seq<Blueprint>, i: nat): nat
    requires i < |bs|
  {
    Deepest(bs[i].dependencyIds, Offsets(bs[..i])) + Weight(bs[i])
  }

  function CompiledNodes(bs: seq<Blueprint>): (nodes: seq<PlanNode>)
    ensures |nodes| == |bs|
  {
    seq(|bs|, i requires 0 <= i < |bs| =>
      var b := bs[i];
      PlanNode(b, OffsetAt(bs, i)))
  }

  function Blueprints(nodes: seq<PlanNode>): (bs: seq<Blueprint>)
    ensures |bs| == |nodes|
  {
    seq(|nodes|, i requires 0 <= i < |nodes| => nodes[i].blueprint)
  }

  function EdgesInto(b: Blueprint, n: nat): seq<Edge>
    requires n <= |b.dependencyIds|
  {
    seq(n, k requires 0 <= k < n => Edge(b.dependencyIds[k], b.nodeId))
  }

  function CompiledEdges(bs: seq<Blueprint>): (edges: seq<Edge>) {
    if bs == [] then []
    else
      var b := bs[|bs| - 1];
      CompiledEdges(bs[..|bs| - 1]) + EdgesInto(b, |b.dependencyIds|)
  }

  /** The emitted edges are the dependency relation. */
  lemma {:induction false} EdgesAreDependencies(bs: seq<Blueprint>, e: Edge)
    ensures e in CompiledEdges(bs) <==>
      exists b | b in bs :: b.nodeId == e.toNodeId && e.fromNodeId in b.dependencyIds
  {
    if bs != [] {
      var front, last := bs[..|bs| - 1], bs[|bs| - 1];
      EdgesAreDependencies(front, e);
      var into := EdgesInto(last, |last.dependencyIds|);
      if last.nodeId == e.toNodeId && e.fromNodeId in last.dependencyIds {
        var k :| 0 <= k < |last.dependencyIds| && last.dependencyIds[k] == e.fromNodeId;
        assert into[k] == e;
      }
      assert e in into <==> last.nodeId == e.toNodeId && e.fromNodeId in last.dependencyIds;
      assert bs == front + [last];
    }
  }

  /** Node `i` depends on node `j`. */
  predicate Feeds(bs: seq<Blueprint>, j: nat, i: nat)
    requires i < |bs| && j < |bs|
  {
    bs[j].nodeId in bs[i].dependencyIds
  }

  /** A walk in which each node depends on the one before it; nodes named by position. */
  predicate DependencyPath(bs: seq<Blueprint>, p: seq<nat>) {
    && p != [] && (forall k | 0 <= k < |p| :: p[k] < |bs|)
    && forall k | 0 <= k < |p| - 1 :: Feeds(bs, p[k], p[k + 1])
  }

  function Duration(bs: seq<Blueprint>, p: seq<nat>): nat
    requires forall k | 0 <= k < |p| :: p[k] < |bs|
  {
    if p == [] then 0 else Duration(bs, p[..|p| - 1]) + Weight(bs[p[|p| - 1]])
  }

  predicate PathTo(bs: seq<Blueprint>, p: seq<nat>, i: nat) {
    DependencyPath(bs, p) && p[|p| - 1] == i
  }

  /** Some dependency path ending at node `i` lasts `n`, and none lasts longer. */
  ghost predicate IsLongestPath(bs: seq<Blueprint>, i: nat, n: nat) {
    && (exists p | PathTo(bs, p, i) :: Duration(bs, p) == n)
    && (forall p | PathTo(bs, p, i) :: Duration(bs, p) <= n)
  }

  /** The walk only goes down the list. */
  predicate Forward(p: seq<nat>) {
    forall k | 0 <= k < |p| - 1 :: p[k] < p[k + 1]
  }

  /** The same among the walks that only go down the list. */
  ghost predicate IsLongestForwardPath(bs: seq<Blueprint>, i: nat, n: nat) {
    && (exists p | PathTo(bs, p, i) && Forward(p) :: Duration(bs, p) == n)
    && (forall p | PathTo(bs, p, i) && Forward(p) :: Duration(bs, p) <= n)
  }

  /** No dependency path outlasts the paths to the same node that only go down the list. */
  ghost predicate ForwardPathsSuffice(bs: seq<Blueprint>) {
    forall p, i | PathTo(bs, p, i) :: MatchedForward(bs, p, i)
  }

  ghost predicate MatchedForward(bs: seq<Blueprint>, p: seq<nat>, i: nat)
    requires PathTo(bs, p, i)
  {
    exists q | PathTo(bs, q, i) && Forward(q) :: Duration(bs, p) <= Duration(bs, q)
  }

  predicate DependenciesFirst(bs: seq<Blueprint>) {
    forall i, j | 0 <= i <= j < |bs| :: !Feeds(bs, j, i)
  }

  lemma {:induction false} OffsetKept(bs: seq<Blueprint>, j: nat, n: nat)
    requires Distinct(NodeIds(bs)) && j < n <= |bs|
    ensures bs[j].nodeId in Offsets(bs[..n]) && Offsets(bs[..n])[bs[j].nodeId] == OffsetAt(bs, j)
  {
    var prefix := bs[..n];
    assert prefix[..n - 1] == bs[..n - 1];
    if j < n - 1 {
      OffsetKept(bs, j, n - 1);
      assert NodeIds(bs)[j] != NodeIds(bs)[n - 1];
    }
  }

  lemma EarlierDependencyFits(bs: seq<Blueprint>, i: nat, j: nat)
    requires Distinct(NodeIds(bs)) && j < i < |bs| && Feeds(bs, j, i)
    ensures OffsetAt(bs, j) + Weight(bs[i]) <= OffsetAt(bs, i)
  {
    OffsetKept(bs, j, i);
    DeepestIsMaximum(bs[i].dependencyIds, Offsets(bs[..i]));
  }

  lemma DurationGrows(bs: seq<Blueprint>, p: seq<nat>, i: nat)
    requires i < |bs| && forall k | 0 <= k < |p| :: p[k] < |bs|
    ensures Duration(bs, p + [i]) == Duration(bs, p) + Weight(bs[i])
  {
  }

  lemma OneStepPath(bs: seq<Blueprint>, p: seq<nat>, i: nat)
    requires i < |bs| && (p == [] || (DependencyPath(bs, p) && Feeds(bs, p[|p| - 1], i)))
    ensures PathTo(bs, p + [i], i) && Duration(bs, p + [i]) == Duration(bs, p) + Weight(bs[i])
  {
    DurationGrows(bs, p, i);
    var q := p + [i];
    assert q != [] && q[|q| - 1] == i;
    forall k | 0 <= k < |q| - 1 ensures Feeds(bs, q[k], q[k + 1]) {
      assert q[k] == p[k];
      if k < |p| - 1 {
        assert Feeds(bs, p[k], p[k + 1]);
      }
    }
  }

  lemma ForwardGrows(p: seq<nat>, i: nat)
    requires Forward(p) && (p != [] ==> p[|p| - 1] < i)
    ensures Forward(p + [i])
  {
  }

  /** Some forward path takes exactly the offset a node was given. */
  lemma {:induction false} OffsetIsAttained(bs: seq<Blueprint>, i: nat) returns (p: seq<nat>)
    requires Distinct(NodeIds(bs)) && i < |bs|
    ensures PathTo(bs, p, i) && Forward(p) && Duration(bs, p) == OffsetAt(bs, i)
    decreases i
  {
    var before := Offsets(bs[..i]);
    DeepestIsMaximum(bs[i].dependencyIds, before);
    p := [];
    if Deepest(bs[i].dependencyIds, before) != 0 {
      var id :| id in bs[i].dependencyIds && id in before && before[id] == Deepest(bs[i].dependencyIds, before);
      assert id in Elements(NodeIds(bs[..i]));
      var j :| 0 <= j < i && NodeIds(bs[..i])[j] == id;
      p := OffsetIsAttained(bs, j);
      OffsetKept(bs, j, i);
    }
    OneStepPath(bs, p, i);
    ForwardGrows(p, i);
    p := p + [i];
  }

  lemma {:induction false} NoForwardPathIsLonger(bs: seq<Blueprint>, p: seq<nat>, i: nat)
    requires Distinct(NodeIds(bs)) && PathTo(bs, p, i) && Forward(p)
    ensures Duration(bs, p) <= OffsetAt(bs, i)
    decreases |p|
  {
    var front := p[..|p| - 1];
    if front == [] {
      assert Duration(bs, front) == 0;
    } else {
      var j := front[|front| - 1];
      assert Feeds(bs, p[|p| - 2], p[|p| - 2 + 1]) && p[|p| - 2] < p[|p| - 2 + 1];
      NoForwardPathIsLonger(bs, front, j);
      EarlierDependencyFits(bs, i, j);
    }
  }

  /** On any list, a deadline offset is the longest dependency path that only goes down the list. */
  lemma OffsetIsLongestForwardPath(bs: seq<Blueprint>, i: nat)
    requires Distinct(NodeIds(bs)) && i < |bs|
    ensures IsLongestForwardPath(bs, i, OffsetAt(bs, i))
  {
    var p := OffsetIsAttained(bs, i);
    forall q | PathTo(bs, q, i) && Forward(q) ensures Duration(bs, q) <= OffsetAt(bs, i) {
      NoForwardPathIsLonger(bs, q, i);
    }
  }

  lemma {:induction false} PathsGoForward(bs: seq<Blueprint>, p: seq<nat>)
    requires DependenciesFirst(bs) && DependencyPath(bs, p)
    ensures Forward(p)
  {
    forall k | 0 <= k < |p| - 1 ensures p[k] < p[k + 1] {
      assert Feeds(bs, p[k], p[k + 1]);
    }
  }

  /** A path is matched by a forward one exactly when it fits in its node's offset. */
  lemma MatchedIffItFits(bs: seq<Blueprint>, p: seq<nat>, i: nat)
    requires Distinct(NodeIds(bs)) && PathTo(bs, p, i)
    ensures MatchedForward(bs, p, i) <==> Duration(bs, p) <= OffsetAt(bs, i)
  {
    if MatchedForward(bs, p, i) {
      var q :| PathTo(bs, q, i) && Forward(q) && Duration(bs, p) <= Duration(bs, q);
      NoForwardPathIsLonger(bs, q, i);
    } else {
      var q := OffsetIsAttained(bs, i);
    }
  }

  lemma LongestWhenForwardSuffices(bs: seq<Blueprint>, i: nat)
    requires Distinct(NodeIds(bs)) && ForwardPathsSuffice(bs) && i < |bs|
    ensures IsLongestPath(bs, i, OffsetAt(bs, i))
  {
    var attained := OffsetIsAttained(bs, i);
    forall p | PathTo(bs, p, i) ensures Duration(bs, p) <= OffsetAt(bs, i) {
      assert MatchedForward(bs, p, i);
      MatchedIffItFits(bs, p, i);
    }
  }

  lemma DependenciesFirstSuffices(bs: seq<Blueprint>)
    requires DependenciesFirst(bs)
    ensures ForwardPathsSuffice(bs)
  {
    forall p, i | PathTo(bs, p, i) ensures MatchedForward(bs, p, i) {
      PathsGoForward(bs, p);
      assert PathTo(bs, p, i) && Forward(p);
    }
  }

  /**
   So every offset is the longest of all dependency paths exactly when none
   outlasts the forward ones, which holds of every list that puts dependencies
   first.
   */
  lemma OffsetsAreLongestPaths(bs: seq<Blueprint>)
    requires Distinct(NodeIds(bs))
    ensures (forall i | 0 <= i < |bs| :: IsLongestPath(bs, i, OffsetAt(bs, i))) <==> ForwardPathsSuffice(bs)
    ensures DependenciesFirst(bs) ==> ForwardPathsSuffice(bs)
  {
    if ForwardPathsSuffice(bs) {
      forall i | 0 <= i < |bs| ensures IsLongestPath(bs, i, OffsetAt(bs, i)) {
        LongestWhenForwardSuffices(bs, i);
      }
    }
    if forall i | 0 <= i < |bs| :: IsLongestPath(bs, i, OffsetAt(bs, i)) {
      forall p, i | PathTo(bs, p, i) ensures MatchedForward(bs, p, i) {
        assert IsLongestPath(bs, i, OffsetAt(bs, i));
        MatchedIffItFits(bs, p, i);
      }
    }
    if DependenciesFirst(bs) {
      DependenciesFirstSuffices(bs);
    }
  }

  // ---------------------------------------------------------------------
  // The shipped blueprints
  // ---------------------------------------------------------------------

  /** Node ids are a letter and a digit counting from 1. */
  function NodeName(letter: char, k: nat): string
    requires k < 9
  {
    [letter, '1' + k as char]
  }

  /** Which positions each node depends on, and which it reads. */
  datatype Shape = Shape(dependencies: seq<seq<nat>>, inputs: seq<seq<nat>>)

  const ARTIFACT_PLAN := Shape(
    [[], [0], [0], [1, 2], [3], [4], [5], [6]], [[], [0], [0], [1, 2], [3], [4], [4, 5], [4, 6]])
  const EXCEPTION_PLAN := Shape([[], [0], [1], [2], [3]], [[], [0], [1], [1, 2], [1, 3]])
  const SHADOW_PLAN := Shape([[], [0], [1], [2], [3]], [[], [0], [1], [1, 2], [0, 3]])
  const COMPENSATED_PLAN := Shape(
    [[], [0], [1], [2], [3], [4], [5]], [[], [0], [1], [1, 2], [1, 3], [1, 4], [5]])

  /** These names, in this order. */
  predicate Names(refs: seq<string>, letter: char, positions: seq<nat>, below: nat) {
    && below <= 9 && |refs| == |positions|
    && forall d | 0 <= d < |refs| :: positions[d] < below && refs[d] == NodeName(letter, positions[d])
  }

  /** The list has this letter and shape; capabilities and durations are whatever routing gave. */
  ghost predicate HasShape(bs: seq<Blueprint>, letter: char, shape: Shape) {
    && |bs| == |shape.dependencies| == |shape.inputs| <= 9
    && forall k | 0 <= k < |bs| ::
      && bs[k].nodeId == NodeName(letter, k)
      && Names(bs[k].dependencyIds, letter, shape.dependencies[k], k)
      && Names(bs[k].inputRefs, letter, shape.inputs[k], k)
  }

  lemma NamesDiffer(letter: char, i: nat, j: nat)
    requires i < 9 && j < 9 && i != j
    ensures NodeName(letter, i) != NodeName(letter, j)
  {
    assert NodeName(letter, i)[1] != NodeName(letter, j)[1];
  }

  lemma ShapedIsDependenciesFirst(bs: seq<Blueprint>, letter: char, shape: Shape)
    requires HasShape(bs, letter, shape)
    ensures Distinct(NodeIds(bs)) && DependenciesFirst(bs) && RefsKnown(bs)
  {
    forall i, j | 0 <= i < j < |bs| ensures NodeIds(bs)[i] != NodeIds(bs)[j] {
      NamesDiffer(letter, i, j);
    }
    forall i, j | 0 <= i <= j < |bs| ensures !Feeds(bs, j, i) {
      forall d | 0 <= d < |bs[i].dependencyIds| ensures bs[i].dependencyIds[d] != bs[j].nodeId {
        NamesDiffer(letter, shape.dependencies[i][d], j);
      }
    }
    forall n, r | n in bs && r in n.dependencyIds + n.inputRefs ensures r in NodeIds(bs) {
      var k :| 0 <= k < |bs| && bs[k] == n;
      var at: nat :| at < k && r == NodeName(letter, at);
      assert NodeIds(bs)[at] == r;
    }
  }

  /** A list that puts known dependencies first is its own schedule. */
  lemma DependenciesFirstIsSchedulable(bs: seq<Blueprint>)
    requires Distinct(NodeIds(bs)) && DependenciesFirst(bs) && RefsKnown(bs)
    ensures Schedulable(DependencySets(bs))
  {
    var order, deps := NodeIds(bs), DependencySets(bs);
    forall j | 0 <= j < |order| ensures deps[order[j]] <= Elements(order[..j]) {
      DependencySetOf(bs, j);
      forall d | d in bs[j].dependencyIds ensures d in Elements(order[..j]) {
        assert bs[j] in bs && d in bs[j].dependencyIds + bs[j].inputRefs;
        var k :| 0 <= k < |order| && order[k] == d;
        assert Feeds(bs, k, j);
        assert k < j && order[..j][k] == d;
      }
    }
    assert Schedules(order, deps);
  }

  predicate DistinctEdges(edges: seq<Edge>) {
    forall i, j | 0 <= i < j < |edges| :: edges[i] != edges[j]
  }

  /** Each dependency is one edge, where no node names one twice. */
  lemma {:induction false} EachDependencyOnce(bs: seq<Blueprint>)
    requires Distinct(NodeIds(bs)) && forall b | b in bs :: Distinct(b.dependencyIds)
    ensures DistinctEdges(CompiledEdges(bs))
  {
    if bs != [] {
      var front, last := bs[..|bs| - 1], bs[|bs| - 1];
      forall i, j | 0 <= i < j < |front| ensures NodeIds(front)[i] != NodeIds(front)[j] {
        assert NodeIds(bs)[i] != NodeIds(bs)[j];
      }
      EachDependencyOnce(front);
      var earlier, into := CompiledEdges(front), EdgesInto(last, |last.dependencyIds|);
      assert last in bs;
      forall i, j | 0 <= i < |earlier| && 0 <= j < |into| ensures earlier[i] != into[j] {
        EdgesAreDependencies(front, earlier[i]);
        var b :| b in front && b.nodeId == earlier[i].toNodeId;
        var k :| 0 <= k < |front| && front[k] == b;
        assert NodeIds(bs)[k] != NodeIds(bs)[|front|];
      }
    }
  }

  lemma ToldEdges(edges: seq<Edge>)
    requires DistinctEdges(edges) && forall i | 0 <= i < |edges| :: '-' !in edges[i].fromNodeId
    ensures Distinct(EdgeKeys(edges))
  {
    forall i, j | 0 <= i < j < |edges| ensures EdgeKeys(edges)[i] != EdgeKeys(edges)[j] {
      EdgeKeysTell(edges[i], edges[j]);
    }
  }

  lemma ShapedEdgeHasNoHyphen(bs: seq<Blueprint>, letter: char, shape: Shape, e: Edge)
    requires HasShape(bs, letter, shape) && letter != '-' && e in CompiledEdges(bs)
    ensures '-' !in e.fromNodeId
  {
    EdgesAreDependencies(bs, e);
    var b :| b in bs && e.fromNodeId in b.dependencyIds;
    var k :| 0 <= k < |bs| && bs[k] == b;
    var d :| 0 <= d < |b.dependencyIds| && b.dependencyIds[d] == e.fromNodeId;
    assert e.fromNodeId == NodeName(letter, shape.dependencies[k][d]);
  }

  lemma ShapedEdgesAreTold(bs: seq<Blueprint>, letter: char, shape: Shape)
    requires HasShape(bs, letter, shape) && letter != '-' && Distinct(NodeIds(bs))
    requires forall b | b in bs :: Distinct(b.dependencyIds)
    ensures Distinct(EdgeKeys(CompiledEdges(bs)))
  {
    var edges := CompiledEdges(bs);
    EachDependencyOnce(bs);
    forall i | 0 <= i < |edges| ensures '-' !in edges[i].fromNodeId {
      ShapedEdgeHasNoHyphen(bs, letter, shape, edges[i]);
    }
    ToldEdges(edges);
  }

  lemma ShippedNamesOnce(shape: Shape, k: nat)
    requires shape in {ARTIFACT_PLAN, EXCEPTION_PLAN, SHADOW_PLAN, COMPENSATED_PLAN} && k < |shape.dependencies|
    ensures |shape.dependencies[k]| <= 1 || shape.dependencies[k] == [1, 2]
  {
  }

  lemma ShippedDependsOnce(bs: seq<Blueprint>, letter: char, shape: Shape, k: nat)
    requires HasShape(bs, letter, shape) && k < |bs|
    requires |shape.dependencies[k]| <= 1 || shape.dependencies[k] == [1, 2]
    ensures Distinct(bs[k].dependencyIds)
  {
    NamesDiffer(letter, 1, 2);
  }

  /** Every shipped blueprint is accepted, and compiled with longest-path offsets. */
  lemma ShippedPlansAreWellFormed(bs: seq<Blueprint>, letter: char, shape: Shape)
    requires shape in {ARTIFACT_PLAN, EXCEPTION_PLAN, SHADOW_PLAN, COMPENSATED_PLAN} && HasShape(bs, letter, shape)
    requires letter == 'N' || letter == 'X'
    ensures WellFormed(bs, CompiledEdges(bs))
    ensures forall i | 0 <= i < |bs| :: IsLongestPath(bs, i, OffsetAt(bs, i))
  {
    ShapedIsDependenciesFirst(bs, letter, shape);
    DependenciesFirstIsSchedulable(bs);
    forall b | b in bs ensures Distinct(b.dependencyIds) {
      var k :| 0 <= k < |bs| && bs[k] == b;
      ShippedNamesOnce(shape, k);
      ShippedDependsOnce(bs, letter, shape, k);
    }
    ShapedEdgesAreTold(bs, letter, shape);
    OffsetsAreLongestPaths(bs);
  }

  /** A blueprint edited so that a node comes before its one dependency. */
  function LateExample(): seq<Blueprint> {
    [Blueprint("a", Some(Capability("c", 1)), ["b"], []), Blueprint("b", Some(Capability("c", 5)), [], [])]
  }

  lemma LateExampleOffsets()
    ensures OffsetAt(LateExample(), 0) == 1 && OffsetAt(LateExample(), 1) == 5
  {
  }

  lemma LateExampleIsWellFormed(nodes: seq<Blueprint>, edges: seq<Edge>)
    requires |nodes| == 2 && |edges| == 1
    requires nodes[0].nodeId == "a" && nodes[0].dependencyIds == ["b"] && nodes[0].inputRefs == []
    requires nodes[1].nodeId == "b" && nodes[1].dependencyIds == [] && nodes[1].inputRefs == []
    ensures WellFormed(nodes, edges)
  {
    var ids, deps := NodeIds(nodes), DependencySets(nodes);
    assert ids == ["a", "b"];
    DependencySetOf(nodes, 0);
    DependencySetOf(nodes, 1);
    LateExampleIsSchedulable(deps);
    assert nodes == [nodes[0], nodes[1]];
  }

  lemma LateExampleIsSchedulable(deps: Dependencies)
    requires deps.Keys == Elements(["a", "b"]) && deps["a"] == Elements(["b"]) && deps["b"] == Elements([])
    ensures Schedulable(deps)
  {
    var order := ["b", "a"];
    assert order[0] == "b" && order[1] == "a" && order[..1] == ["b"];
    assert Elements(order) == Elements(["a", "b"]);
    assert Schedules(order, deps);
  }

  lemma LateExampleIsShort()
    ensures !IsLongestPath(LateExample(), 0, OffsetAt(LateExample(), 0))
  {
    var bs := LateExample();
    LateExampleOffsets();
    assert Duration(bs, []) == 0;
    OneStepPath(bs, [], 1);
    OneStepPath(bs, [] + [1], 0);
  }

  /**
   The structural check does not ask for that order: this acyclic list passes
   it, and its first node is given less time than its dependency alone takes.
   */
  lemma LateDependencyIsMissed()
    ensures WellFormed(LateExample(), CompiledEdges(LateExample()))
    ensures !IsLongestPath(LateExample(), 0, OffsetAt(LateExample(), 0))
  {
    LateExampleIsShort();
    CompiledStep(LateExample(), 0);
    CompiledStep(LateExample(), 1);
    assert LateExample()[..2] == LateExample() && LateExample()[..0] == [];
    LateExampleIsWellFormed(LateExample(), CompiledEdges(LateExample()));
  }

  method DeepestOffset(ids: seq<string>, offsets: map<string, nat>) returns (deepest: nat)
    ensures deepest == Deepest(ids, offsets)
  {
    deepest := 0;
    for k := 0 to |ids|
      invariant deepest == Deepest(ids[..k], offsets)
    {
      var offset := if ids[k] in offsets then offsets[ids[k]] else 0;
      assert ids[..k + 1][..k] == ids[..k];
      deepest := if offset > deepest then offset else deepest;
    }
    assert ids[..|ids|] == ids;
  }

  /** Every deadline offset is the longest forward path, and the longest path where dependencies come first. */
  ghost predicate OffsetsHold(bs: seq<Blueprint>, nodes: seq<PlanNode>) {
    && |nodes| == |bs|
    && (forall i | 0 <= i < |bs| :: IsLongestForwardPath(bs, i, nodes[i].deadlineOffsetMs))
    && (DependenciesFirst(bs) ==> forall i | 0 <= i < |bs| :: IsLongestPath(bs, i, nodes[i].deadlineOffsetMs))
  }

  ghost predicate EdgesHold(bs: seq<Blueprint>, edges: seq<Edge>) {
    forall e :: e in edges <==>
      exists b | b in bs :: b.nodeId == e.toNodeId && e.fromNodeId in b.dependencyIds
  }

  lemma CompiledPlanHolds(bs: seq<Blueprint>)
    requires Distinct(NodeIds(bs))
    ensures OffsetsHold(bs, CompiledNodes(bs)) && EdgesHold(bs, CompiledEdges(bs))
  {
    OffsetsAreLongestPaths(bs);
    forall i | 0 <= i < |bs| ensures IsLongestForwardPath(bs, i, CompiledNodes(bs)[i].deadlineOffsetMs) {
      OffsetIsLongestForwardPath(bs, i);
    }
    forall e ensures e in CompiledEdges(bs) <==>
      exists b | b in bs :: b.nodeId == e.toNodeId && e.fromNodeId in b.dependencyIds
    {
      EdgesAreDependencies(bs, e);
    }
  }

  /**
   Compiles a blueprint list: fails exactly when the result is not well
   formed; otherwise each node keeps its blueprint and gets its offset, and
   the edges are exactly the dependency relation, each once.
   */
  method CompileAgenticPlan(bs: seq<Blueprint>) returns (r: Result<Plan, PlanError>)
    ensures r.Ok? <==> WellFormed(bs, CompiledEdges(bs))
    ensures r.Ok? ==> r.value == Plan(CompiledNodes(bs), CompiledEdges(bs))
    ensures r.Ok? ==> OffsetsHold(bs, r.value.nodes) && EdgesHold(bs, r.value.edges)
  {
    var nodes, edges := CompileNodes(bs);
    assert Blueprints(nodes) == bs;
    var error := AssertPlanIsWellFormed(Blueprints(nodes), edges);
    if error.Some? {
      return Err(error.value);
    }
    CompiledPlanHolds(bs);
    return Ok(Plan(nodes, edges));
  }

  lemma CompiledStep(bs: seq<Blueprint>, i: nat)
    requires i < |bs|
    ensures CompiledEdges(bs[..i + 1]) == CompiledEdges(bs[..i]) + EdgesInto(bs[i], |bs[i].dependencyIds|)
    ensures Offsets(bs[..i + 1]) == Offsets(bs[..i])[bs[i].nodeId := OffsetAt(bs, i)]
    ensures CompiledNodes(bs)[..i + 1] == CompiledNodes(bs)[..i] + [PlanNode(bs[i], OffsetAt(bs, i))]
  {
    var prefix := bs[..i + 1];
    assert |prefix| == i + 1 && prefix[i] == bs[i];
    assert prefix[..i] == bs[..i];
  }

  /** One blueprint: its node and its deadline offset, from the offsets of those before it. */
  method CompileNode(ghost bs: seq<Blueprint>, ghost i: nat, b: Blueprint, offsetByNode: map<string, nat>)
    returns (node: PlanNode)
    requires i < |bs| && b == bs[i] && offsetByNode == Offsets(bs[..i])
    ensures node == PlanNode(bs[i], OffsetAt(bs, i))
  {
    var dependencyOffset := DeepestOffset(b.dependencyIds, offsetByNode);
    var offset :=
      if b.capability.None? then dependencyOffset else dependencyOffset + b.capability.value.maxDurationMs;
    return PlanNode(b, offset);
  }

  method CompileNodes(bs: seq<Blueprint>) returns (nodes: seq<PlanNode>, edges: seq<Edge>)
    ensures nodes == CompiledNodes(bs) && edges == CompiledEdges(bs)
  {
    nodes, edges := [], [];
    var offsetByNode: map<string, nat> := map[];
    assert bs[..0] == [];
    for i := 0 to |bs|
      invariant nodes == CompiledNodes(bs)[..i]
      invariant edges == CompiledEdges(bs[..i]) && offsetByNode == Offsets(bs[..i])
    {
      var node := CompileNode(bs, i, bs[i], offsetByNode);
      CompiledStep(bs, i);
      nodes := nodes + [node];
      edges := PushEdges(edges, bs[i]);
      offsetByNode := offsetByNode[node.blueprint.nodeId := node.deadlineOffsetMs];
    }
    assert bs[..|bs|] == bs && CompiledNodes(bs)[..|bs|] == CompiledNodes(bs);
  }

  method PushEdges(edges: seq<Edge>, b: Blueprint) returns (out: seq<Edge>)
    ensures out == edges + EdgesInto(b, |b.dependencyIds|)
  {
    out := edges;
    for k := 0 to |b.dependencyIds|
      invariant out == edges + EdgesInto(b, k)
    {
      out := out + [Edge(b.dependencyIds[k], b.nodeId)];
      assert EdgesInto(b, k + 1) == EdgesInto(b, k) + [Edge(b.dependencyIds[k], b.nodeId)];
    }
  }
}
