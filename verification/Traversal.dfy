/** Breadth-first traversal of the association graph (`traverse_api.rs`). */
module Traversal {
  import opened MemoryModel
  import opened Sorting

  datatype Direction = Outgoing | Incoming | Both

  datatype EdgeView = EdgeView(
    from: Id, to: Id, kind: LinkType, strength: real, confidence: real, activationCount: nat, evidence: string)

  datatype TraverseNode = TraverseNode(id: Id, depth: nat, importance: real)

  datatype Traversed = Found(nodes: seq<TraverseNode>, edges: seq<EdgeView>) | NotFound(id: Id)

  // ----- the graph that is walked -----

  /** The unit stored under `id`; of units with one id the last wins. */
  function Find(units: seq<MemoryUnit>, id: Id): (r: Option<MemoryUnit>)
    ensures r.Some? ==> r.value in units && r.value.id == id
    ensures r.None? ==> forall u :: u in units ==> u.id != id
  {
    if units == [] then None
    else
      var n := |units| - 1;
      assert units == units[..n] + [units[n]];
      if units[n].id == id then Some(units[n]) else Find(units[..n], id)
  }

  predicate Live(units: seq<MemoryUnit>, id: Id) {
    Find(units, id).Some?
  }

  predicate Allowed(types: Option<seq<LinkType>>, l: Link) {
    types.Some? ==> l.kind in types.value
  }

  /** A neighbour and the link it is reached by. */
  type Candidate = (Id, Link)

  function OutCandidates(links: seq<Link>): seq<Candidate> {
    if links == [] then [] else OutCandidates(links[..|links| - 1]) + [(links[|links| - 1].target, links[|links| - 1])]
  }

  /** The links among `links`, held by `holder`, that point at `id`. */
  function Pointing(holder: Id, links: seq<Link>, id: Id): seq<Candidate> {
    if links == [] then []
    else
      var n := |links| - 1;
      Pointing(holder, links[..n], id) + if links[n].target == id then [(holder, links[n])] else []
  }

  function InCandidates(units: seq<MemoryUnit>, id: Id): seq<Candidate> {
    if units == [] then []
    else
      var n := |units| - 1;
      InCandidates(units[..n], id) + Pointing(units[n].id, units[n].links, id)
  }

  function Candidates(units: seq<MemoryUnit>, unit: MemoryUnit, id: Id, direction: Direction): seq<Candidate> {
    match direction
    case Outgoing => OutCandidates(unit.links)
    case Incoming => InCandidates(units, id)
    case Both => OutCandidates(unit.links) + InCandidates(units, id)
  }

  function View(from: Id, c: Candidate): EdgeView {
    EdgeView(from, c.0, c.1.kind, c.1.strength, c.1.confidence, c.1.activationCount,
             if c.1.note.Some? then c.1.note.value else "")
  }

  /** The views of the allowed candidates. */
  function Views(from: Id, candidates: seq<Candidate>, types: Option<seq<LinkType>>): seq<EdgeView> {
    if candidates == [] then []
    else
      var n := |candidates| - 1;
      Views(from, candidates[..n], types) + if Allowed(types, candidates[n].1) then [View(from, candidates[n])] else []
  }

  /** The allowed edges of a node; an id without a unit has none. */
  function EdgesFrom(units: seq<MemoryUnit>, direction: Direction, types: Option<seq<LinkType>>): Id -> seq<EdgeView> {
    (id: Id) =>
      if Live(units, id) then Views(id, Candidates(units, Find(units, id).value, id, direction), types) else []
  }

  // ----- distance -----

  ghost predicate StepsTo(edges: Id -> seq<EdgeView>, y: Id, x: Id) {
    exists e :: e in edges(y) && e.to == x
  }

  /** There is a walk of `k` edges from `start` to `x`. */
  ghost predicate Walk(edges: Id -> seq<EdgeView>, start: Id, x: Id, k: nat)
    decreases k
  {
    if k == 0 then x == start
    else exists y :: Walk(edges, start, y, k - 1) && StepsTo(edges, y, x)
  }

  /** The shortest walk from `start` to `x` has `k` edges. */
  ghost predicate IsDistance(edges: Id -> seq<EdgeView>, start: Id, x: Id, k: nat) {
    Walk(edges, start, x, k) && forall j: nat :: j < k ==> !Walk(edges, start, x, j)
  }

  // ----- what the queue has seen -----

  type Visits = seq<(Id, nat)>

  ghost predicate Seen(order: Visits, x: Id, d: nat) {
    exists j :: 0 <= j < |order| && order[j].0 == x && order[j].1 <= d
  }

  /** Every edge ends at a node seen within depth `d`. */
  ghost predicate Covered(order: Visits, es: seq<EdgeView>, d: nat) {
    forall e :: e in es ==> Seen(order, e.to, d)
  }

  ghost predicate Rising(order: Visits) {
    forall i, j :: 0 <= i < j < |order| ==> order[i].0 != order[j].0 && order[i].1 <= order[j].1
  }

  /** Each id once, depths rising, and no depth without a walk of that length. */
  ghost predicate Orderly(order: Visits, edges: Id -> seq<EdgeView>, start: Id, limit: nat) {
    && order != [] && order[0] == (start, 0)
    && Rising(order)
    && (forall i :: 0 <= i < |order| ==> order[i].1 <= limit && Walk(edges, start, order[i].0, order[i].1))
  }

  ghost predicate ExpandedAt(order: Visits, i: nat, edges: Id -> seq<EdgeView>, limit: nat)
    requires i < |order|
  {
    order[i].1 < limit ==> Covered(order, edges(order[i].0), order[i].1 + 1)
  }

  /** The first `head` nodes have been expanded, as far as the limit allows. */
  ghost predicate Expanded(order: Visits, head: nat, edges: Id -> seq<EdgeView>, limit: nat)
    requires head <= |order|
  {
    forall i: nat :: i < head ==> ExpandedAt(order, i, edges, limit)
  }

  /** Nothing lies more than one deeper than the node at `head`. */
  ghost predicate Near(order: Visits, head: nat) {
    head < |order| ==> forall j :: 0 <= j < |order| ==> order[j].1 <= order[head].1 + 1
  }

  lemma SeenGrows(order: Visits, v: (Id, nat), x: Id, d: nat)
    requires Seen(order, x, d)
    ensures Seen(order + [v], x, d)
  {
    var j :| 0 <= j < |order| && order[j].0 == x && order[j].1 <= d;
    assert (order + [v])[j] == order[j];
  }

  lemma CoveredGrows(order: Visits, v: (Id, nat), es: seq<EdgeView>, d: nat)
    requires Covered(order, es, d)
    ensures Covered(order + [v], es, d)
  {
    forall e | e in es ensures Seen(order + [v], e.to, d) {
      SeenGrows(order, v, e.to, d);
    }
  }

  lemma ExpandedGrows(order: Visits, v: (Id, nat), head: nat, edges: Id -> seq<EdgeView>, limit: nat)
    requires head <= |order| && Expanded(order, head, edges, limit)
    ensures Expanded(order + [v], head, edges, limit)
  {
    forall i: nat | i < head ensures ExpandedAt(order + [v], i, edges, limit) {
      assert ExpandedAt(order, i, edges, limit);
      if order[i].1 < limit {
        CoveredGrows(order, v, edges(order[i].0), order[i].1 + 1);
      }
    }
  }

  /** Once the queue is empty, every node within the limit has been seen no deeper than any walk to it. */
  lemma {:induction false} Complete(order: Visits, edges: Id -> seq<EdgeView>, start: Id, limit: nat, x: Id, k: nat)
    requires Orderly(order, edges, start, limit) && Expanded(order, |order|, edges, limit)
    requires k <= limit && Walk(edges, start, x, k)
    ensures Seen(order, x, k)
    decreases k
  {
    if k == 0 {
      assert order[0].0 == x;
    } else {
      var y :| Walk(edges, start, y, k - 1) && StepsTo(edges, y, x);
      Complete(order, edges, start, limit, y, k - 1);
      var j :| 0 <= j < |order| && order[j].0 == y && order[j].1 <= k - 1;
      assert ExpandedAt(order, j, edges, limit);
      assert Seen(order, x, order[j].1 + 1);
    }
  }

  /** So the recorded depths are the distances, and all distances up to the limit are recorded. */
  lemma DepthsAreDistances(order: Visits, edges: Id -> seq<EdgeView>, start: Id, limit: nat, x: Id, d: nat)
    requires Orderly(order, edges, start, limit) && Expanded(order, |order|, edges, limit)
    ensures (x, d) in order <==> d <= limit && IsDistance(edges, start, x, d)
  {
    if (x, d) in order {
      var i :| 0 <= i < |order| && order[i] == (x, d);
      forall j: nat | j < d ensures !Walk(edges, start, x, j) {
        if Walk(edges, start, x, j) {
          Complete(order, edges, start, limit, x, j);
        }
      }
    }
    if d <= limit && IsDistance(edges, start, x, d) {
      Complete(order, edges, start, limit, x, d);
      var i :| 0 <= i < |order| && order[i].0 == x && order[i].1 <= d;
      assert Walk(edges, start, x, order[i].1);
    }
  }

  // ----- recorded edges -----

  /** The edges of the visits above the depth limit, in order. */
  ghost function EdgesOver(order: Visits, edges: Id -> seq<EdgeView>, limit: nat): seq<EdgeView> {
    if order == [] then []
    else
      var n := |order| - 1;
      EdgesOver(order[..n], edges, limit) + if order[n].1 < limit then edges(order[n].0) else []
  }

  function LiveVisit(units: seq<MemoryUnit>): ((Id, nat)) -> bool {
    (v: (Id, nat)) => Live(units, v.0)
  }

  /** Ids without a unit are queued but contribute nothing. */
  lemma {:induction false} EdgesOfLive(order: Visits, units: seq<MemoryUnit>, direction: Direction,
                                       types: Option<seq<LinkType>>, limit: nat)
    ensures EdgesOver(Filter(order, LiveVisit(units)), EdgesFrom(units, direction, types), limit) ==
            EdgesOver(order, EdgesFrom(units, direction, types), limit)
  {
    if order != [] {
      var n := |order| - 1;
      EdgesOfLive(order[..n], units, direction, types, limit);
      FilterLast(order, LiveVisit(units));
      var before := Filter(order[..n], LiveVisit(units));
      if Live(units, order[n].0) {
        assert (before + [order[n]])[..|before|] == before;
      } else {
        assert EdgesFrom(units, direction, types)(order[n].0) == [];
        assert Filter(order, LiveVisit(units)) == before;
      }
    }
  }

  /** The start, then the listed nodes. */
  function VisitsOf(start: Id, nodes: seq<TraverseNode>): Visits {
    [(start, 0)] + seq(|nodes|, i requires 0 <= i < |nodes| => (nodes[i].id, nodes[i].depth))
  }

  // ----- the traversal -----

  method IndexUnits(units: seq<MemoryUnit>) returns (unitMap: map<Id, MemoryUnit>)
    ensures Indexes(unitMap, units)
  {
    unitMap := map[];
    for i := 0 to |units|
      invariant forall id :: id in unitMap <==> Live(units[..i], id)
      invariant forall id :: id in unitMap ==> Find(units[..i], id) == Some(unitMap[id])
    {
      assert units[..i + 1][..i] == units[..i];
      unitMap := unitMap[units[i].id := units[i]];
    }
    assert units[..|units|] == units;
  }

  /** The in-edges of a node, found by scanning every unit's links. */
  method ScanInEdges(units: seq<MemoryUnit>, id: Id) returns (found: seq<Candidate>)
    ensures found == InCandidates(units, id)
  {
    found := [];
    for i := 0 to |units|
      invariant found == InCandidates(units[..i], id)
    {
      var other := units[i];
      ghost var before := found;
      for j := 0 to |other.links|
        invariant found == before + Pointing(other.id, other.links[..j], id)
      {
        assert other.links[..j + 1][..j] == other.links[..j];
        if other.links[j].target == id {
          found := found + [(other.id, other.links[j])];
        }
      }
      assert other.links[..|other.links|] == other.links;
      assert units[..i + 1][..i] == units[..i];
    }
    assert units[..|units|] == units;
  }

  method CollectCandidates(units: seq<MemoryUnit>, unit: MemoryUnit, id: Id, direction: Direction)
    returns (candidates: seq<Candidate>)
    ensures candidates == Candidates(units, unit, id, direction)
  {
    match direction
    case Outgoing => candidates := OutCandidates(unit.links);
    case Incoming => candidates := ScanInEdges(units, id);
    case Both =>
      var incoming := ScanInEdges(units, id);
      candidates := OutCandidates(unit.links) + incoming;
  }

  function Clamp(x: nat, low: nat, high: nat): nat {
    if x < low then low else if x > high then high else x
  }

  ghost predicate HasVisit(order: Visits, x: Id) {
    exists j :: 0 <= j < |order| && order[j].0 == x
  }

  /** The visited set and the listed nodes match the visits: every live one but the start is listed. */
  ghost predicate Recorded(order: Visits, visited: set<Id>, nodes: seq<TraverseNode>, units: seq<MemoryUnit>,
                           start: Id) {
    && (forall x :: x in visited <==> HasVisit(order, x))
    && VisitsOf(start, nodes) == Filter(order, LiveVisit(units))
    && (forall n :: n in nodes ==> Live(units, n.id) && n.importance == Find(units, n.id).value.importance)
  }

  lemma RecordVisit(order: Visits, visited: set<Id>, nodes: seq<TraverseNode>, units: seq<MemoryUnit>, start: Id, x: Id,
                    d: nat)
    requires Recorded(order, visited, nodes, units, start)
    ensures Live(units, x) ==>
              Recorded(order + [(x, d)], visited + {x}, nodes + [TraverseNode(x, d, Find(units, x).value.importance)],
                       units, start)
    ensures !Live(units, x) ==> Recorded(order + [(x, d)], visited + {x}, nodes, units, start)
  {
    var longer := order + [(x, d)];
    forall y ensures y in visited + {x} <==> HasVisit(longer, y) {
      if y == x {
        assert longer[|order|].0 == y;
      } else if y in visited {
        var j :| 0 <= j < |order| && order[j].0 == y;
        assert longer[j].0 == y;
      }
    }
    assert longer[..|order|] == order;
    FilterLast(longer, LiveVisit(units));
    if Live(units, x) {
      var n := TraverseNode(x, d, Find(units, x).value.importance);
      assert VisitsOf(start, nodes + [n]) == VisitsOf(start, nodes) + [(x, d)];
    }
  }

  /** A node one step from an expanded one may be queued next. */
  lemma EnqueueNeighbour(order: Visits, edges: Id -> seq<EdgeView>, start: Id, limit: nat, c: nat, x: Id)
    requires c < |order| && Orderly(order, edges, start, limit) && order[c].1 < limit
    requires (forall j :: 0 <= j < |order| ==> order[j].1 <= order[c].1 + 1 && order[j].0 != x) &&
             StepsTo(edges, order[c].0, x)
    ensures Orderly(order + [(x, order[c].1 + 1)], edges, start, limit)
  {
    assert Walk(edges, start, order[c].0, order[c].1);
    var k := order[c].1 + 1;
    assert Walk(edges, start, x, k);
  }

  /** Everything seen so far, while the node at index `c` is being expanded. */
  ghost predicate Expanding(order: Visits, c: nat, edges: Id -> seq<EdgeView>, start: Id, limit: nat) {
    && c < |order| && order[c].1 < limit
    && Orderly(order, edges, start, limit) && Expanded(order, c, edges, limit)
    && forall j :: 0 <= j < |order| ==> order[j].1 <= order[c].1 + 1
  }

  lemma EnqueueKeeps(order: Visits, c: nat, edges: Id -> seq<EdgeView>, start: Id, limit: nat, x: Id, visited: set<Id>)
    requires Expanding(order, c, edges, start, limit) && StepsTo(edges, order[c].0, x)
    requires x !in visited && forall y :: y in visited <==> HasVisit(order, y)
    ensures Expanding(order + [(x, order[c].1 + 1)], c, edges, start, limit)
  {
    forall j | 0 <= j < |order| ensures order[j].0 != x {
      assert order[j].0 in visited;
    }
    EnqueueNeighbour(order, edges, start, limit, c, x);
    ExpandedGrows(order, (x, order[c].1 + 1), c, edges, limit);
  }

  lemma VisitedIsSeen(order: Visits, c: nat, edges: Id -> seq<EdgeView>, start: Id, limit: nat, x: Id, visited: set<Id>)
    requires Expanding(order, c, edges, start, limit) && x in visited
    requires forall y :: y in visited <==> HasVisit(order, y)
    ensures Seen(order, x, order[c].1 + 1)
  {
    var j :| 0 <= j < |order| && order[j].0 == x;
  }

  lemma ViewsPush(from: Id, candidates: seq<Candidate>, c: Candidate, types: Option<seq<LinkType>>)
    ensures Views(from, candidates + [c], types) ==
            Views(from, candidates, types) + if Allowed(types, c.1) then [View(from, c)] else []
  {
    assert (candidates + [c])[..|candidates|] == candidates;
  }

  lemma ViewsSplit(from: Id, a: seq<Candidate>, b: seq<Candidate>, types: Option<seq<LinkType>>)
    ensures Views(from, a + b, types) == Views(from, a, types) + Views(from, b, types)
  {
    var views := (cs: seq<Candidate>) => Views(from, cs, types);
    var one := (c: Candidate) => if Allowed(types, c.1) then [View(from, c)] else [];
    forall cs, c ensures PushesAt(views, one, cs, c) {
      ViewsPush(from, cs, c, types);
    }
    PushesSplit(views, one, a, b);
  }

  lemma AllowedSteps(edges: Id -> seq<EdgeView>, id: Id, candidates: seq<Candidate>, types: Option<seq<LinkType>>,
                     i: nat)
    requires edges(id) == Views(id, candidates, types) && i < |candidates| && Allowed(types, candidates[i].1)
    ensures StepsTo(edges, id, candidates[i].0)
  {
    assert candidates == candidates[..i + 1] + candidates[i + 1..];
    ViewsSplit(id, candidates[..i + 1], candidates[i + 1..], types);
    assert candidates[..i + 1][..i] == candidates[..i];
    assert View(id, candidates[i]) in edges(id);
  }

  ghost predicate Indexes(unitMap: map<Id, MemoryUnit>, units: seq<MemoryUnit>) {
    && (forall id :: id in unitMap <==> Live(units, id))
    && (forall id :: id in unitMap ==> Find(units, id) == Some(unitMap[id]))
  }

  /** The state while the node at index `c` is being expanded; the queue holds what comes after it. */
  ghost predicate Exploring(order: Visits, c: nat, queue: Visits, visited: set<Id>, nodes: seq<TraverseNode>,
                            units: seq<MemoryUnit>, edges: Id -> seq<EdgeView>, start: Id, limit: nat) {
    Expanding(order, c, edges, start, limit) && Recorded(order, visited, nodes, units, start) && queue == order[c + 1..]
  }

  /** `x` is queued at depth `d`, unless it was seen before. */
  ghost predicate Queued(order: Visits, order': Visits, x: Id, d: nat) {
    (order' == order || order' == order + [(x, d)]) && Seen(order', x, d)
  }

  lemma QueueNew(x: Id, d: nat, visited: set<Id>, nodes: seq<TraverseNode>, queue: Visits, order: Visits, c: nat,
                 edges: Id -> seq<EdgeView>, units: seq<MemoryUnit>, start: Id, limit: nat)
    requires Exploring(order, c, queue, visited, nodes, units, edges, start, limit) && x !in visited
    requires d == order[c].1 + 1 && StepsTo(edges, order[c].0, x)
    ensures Queued(order, order + [(x, d)], x, d)
    ensures Exploring(order + [(x, d)], c, queue + [(x, d)], visited + {x},
                      if Live(units, x) then nodes + [TraverseNode(x, d, Find(units, x).value.importance)] else nodes,
                      units, edges, start, limit)
  {
    EnqueueKeeps(order, c, edges, start, limit, x, visited);
    RecordVisit(order, visited, nodes, units, start, x, d);
    assert (order + [(x, d)])[|order|] == (x, d);
  }

  /** Lists and queues a neighbour unless it was visited before. */
  method Visit(x: Id, depth: nat, unitMap: map<Id, MemoryUnit>, visited: set<Id>, nodes: seq<TraverseNode>,
               queue: Visits,
               ghost order: Visits, ghost c: nat, ghost edges: Id -> seq<EdgeView>, ghost units: seq<MemoryUnit>,
               ghost start: Id, ghost limit: nat)
    returns (visited': set<Id>, nodes': seq<TraverseNode>, queue': Visits, ghost order': Visits)
    requires Indexes(unitMap, units) && Exploring(order, c, queue, visited, nodes, units, edges, start, limit)
    requires depth == order[c].1 + 1 && StepsTo(edges, order[c].0, x)
    ensures Exploring(order', c, queue', visited', nodes', units, edges, start, limit)
    ensures Queued(order, order', x, depth)
  {
    visited', nodes', queue', order' := visited, nodes, queue, order;
    if x !in visited {
      QueueNew(x, depth, visited, nodes, queue, order, c, edges, units, start, limit);
      visited' := visited + {x};
      if x in unitMap {
        nodes' := nodes + [TraverseNode(x, depth, unitMap[x].importance)];
      }
      queue' := queue + [(x, depth)];
      order' := order + [(x, depth)];
    } else {
      VisitedIsSeen(order, c, edges, start, limit, x, visited);
    }
  }

  lemma CoveredNext(order: Visits, order': Visits, x: Id, d: nat, es: seq<EdgeView>, e: EdgeView)
    requires Covered(order, es, d) && Queued(order, order', x, d) && e.to == x
    ensures Covered(order', es + [e], d)
  {
    CoveredGrows(order, (x, d), es, d);
  }

  /** The first `i` candidates of the node at `c` are dealt with: their allowed edges `es` are recorded and covered. */
  ghost predicate Midway(candidates: seq<Candidate>, i: nat, es: seq<EdgeView>, order: Visits, c: nat,
                         types: Option<seq<LinkType>>)
    requires i <= |candidates| && c < |order|
  {
    es == Views(order[c].0, candidates[..i], types) && Covered(order, es, order[c].1 + 1)
  }

  lemma MidwayNext(candidates: seq<Candidate>, i: nat, es: seq<EdgeView>, order: Visits, order': Visits, c: nat,
                   types: Option<seq<LinkType>>)
    requires i < |candidates| && c < |order| && Allowed(types, candidates[i].1) &&
             Midway(candidates, i, es, order, c, types)
    requires Queued(order, order', candidates[i].0, order[c].1 + 1)
    ensures order <= order' && Midway(candidates, i + 1, es + [View(order[c].0, candidates[i])], order', c, types)
  {
    assert candidates[..i + 1] == candidates[..i] + [candidates[i]];
    ViewsPush(order[c].0, candidates[..i], candidates[i], types);
    CoveredNext(order, order', candidates[i].0, order[c].1 + 1, es, View(order[c].0, candidates[i]));
  }

  /** Deals with one allowed candidate. */
  method Follow(candidates: seq<Candidate>, i: nat, types: Option<seq<LinkType>>, unitMap: map<Id, MemoryUnit>,
                depth: nat, visited: set<Id>, nodes: seq<TraverseNode>, queue: Visits, ghost es: seq<EdgeView>,
                ghost order: Visits, ghost c: nat, ghost edges: Id -> seq<EdgeView>, ghost units: seq<MemoryUnit>,
                ghost start: Id, ghost limit: nat)
    returns (visited': set<Id>, nodes': seq<TraverseNode>, queue': Visits, ghost order': Visits)
    requires Indexes(unitMap, units) && Exploring(order, c, queue, visited, nodes, units, edges, start, limit)
    requires i < |candidates| && Allowed(types, candidates[i].1) && Midway(candidates, i, es, order, c, types)
    requires depth == order[c].1 && StepsTo(edges, order[c].0, candidates[i].0)
    ensures Exploring(order', c, queue', visited', nodes', units, edges, start, limit) && order <= order'
    ensures Midway(candidates, i + 1, es + [View(order[c].0, candidates[i])], order', c, types)
  {
    visited', nodes', queue', order' :=
      Visit(candidates[i].0, depth + 1, unitMap, visited, nodes, queue, order, c, edges, units, start, limit);
    MidwayNext(candidates, i, es, order, order', c, types);
  }

  /** Expands one node: records its allowed edges and queues the neighbours not yet visited. */
  method Expand(id: Id, depth: nat, candidates: seq<Candidate>, types: Option<seq<LinkType>>,
                unitMap: map<Id, MemoryUnit>,
                visited: set<Id>, nodes: seq<TraverseNode>, recorded: seq<EdgeView>, queue: Visits,
                ghost order: Visits, ghost c: nat, ghost edges: Id -> seq<EdgeView>, ghost units: seq<MemoryUnit>,
                ghost start: Id, ghost limit: nat)
    returns (visited': set<Id>, nodes': seq<TraverseNode>, recorded': seq<EdgeView>, queue': Visits,
             ghost order': Visits)
    requires Indexes(unitMap, units) && Exploring(order, c, queue, visited, nodes, units, edges, start, limit)
    requires order[c] == (id, depth) && edges(id) == Views(id, candidates, types)
    ensures Exploring(order', c, queue', visited', nodes', units, edges, start, limit)
    ensures Covered(order', edges(id), depth + 1) && recorded' == recorded + edges(id) && order <= order'
  {
    visited', nodes', recorded', queue', order' := visited, nodes, recorded, queue, order;
    ghost var es := [];
    for i := 0 to |candidates|
      invariant Exploring(order', c, queue', visited', nodes', units, edges, start, limit) && order <= order'
      invariant Midway(candidates, i, es, order', c, types) && recorded' == recorded + es
    {
      SkipCandidate(candidates, i, es, order', c, types);
      if Allowed(types, candidates[i].1) {
        recorded' := recorded' + [View(id, candidates[i])];
        AllowedSteps(edges, id, candidates, types, i);
        visited', nodes', queue', order' :=
          Follow(candidates, i, types, unitMap, depth, visited', nodes', queue', es, order', c, edges, units, start,
                 limit);
        es := es + [View(id, candidates[i])];
      }
    }
    assert candidates[..|candidates|] == candidates;
  }

  lemma SkipCandidate(candidates: seq<Candidate>, i: nat, es: seq<EdgeView>, order: Visits, c: nat,
                      types: Option<seq<LinkType>>)
    requires i < |candidates| && c < |order| && Midway(candidates, i, es, order, c, types)
    ensures !Allowed(types, candidates[i].1) ==> Midway(candidates, i + 1, es, order, c, types)
  {
    assert candidates[..i + 1][..i] == candidates[..i];
  }

  lemma NextHead(order: Visits, c: nat, edges: Id -> seq<EdgeView>, start: Id, limit: nat)
    requires Expanding(order, c, edges, start, limit) && Covered(order, edges(order[c].0), order[c].1 + 1)
    ensures Expanded(order, c + 1, edges, limit) && Near(order, c + 1)
  {
    if c + 1 < |order| {
      assert order[c].1 <= order[c + 1].1;
    }
  }

  ghost predicate Lists(nodes: seq<TraverseNode>, x: Id, d: nat) {
    exists i :: 0 <= i < |nodes| && nodes[i].id == x && nodes[i].depth == d
  }

  /**
   What a traversal promises: exactly the live nodes within the depth, at their distances, and every edge of every
   expanded node.
   */
  ghost predicate TraversesGraph(nodes: seq<TraverseNode>, recorded: seq<EdgeView>, units: seq<MemoryUnit>,
                                 edges: Id -> seq<EdgeView>, start: Id, limit: nat) {
    && (forall i, j :: 0 <= i < j < |nodes| ==> nodes[i].id != nodes[j].id && nodes[i].depth <= nodes[j].depth)
    && (forall x: Id, d: nat :: Lists(nodes, x, d) <==>
          x != start && Live(units, x) && d <= limit && IsDistance(edges, start, x, d))
    && (forall n :: n in nodes ==> Live(units, n.id) && n.importance == Find(units, n.id).value.importance)
    && recorded == EdgesOver(VisitsOf(start, nodes), edges, limit)
  }

  lemma {:induction false} FilterRising(order: Visits, keep: ((Id, nat)) -> bool)
    requires Rising(order)
    ensures Rising(Filter(order, keep))
  {
    if order != [] {
      FilterRising(order[1..], keep);
      FilterMembers(order[1..], keep);
      var rest := Filter(order[1..], keep);
      forall j | 0 <= j < |rest| ensures order[0].0 != rest[j].0 && order[0].1 <= rest[j].1 {
        assert rest[j] in rest;
      }
    }
  }

  /** A live visit other than the start is listed, and nothing else is. */
  lemma ListedExactly(order: Visits, nodes: seq<TraverseNode>, units: seq<MemoryUnit>, start: Id, x: Id, d: nat)
    requires Rising(order) && VisitsOf(start, nodes) == Filter(order, LiveVisit(units))
    ensures Lists(nodes, x, d) <==> x != start && Live(units, x) && (x, d) in order
  {
    FilterMembers(order, LiveVisit(units));
    FilterRising(order, LiveVisit(units));
    ListedVisits(nodes, start, x, d);
  }

  lemma ListedVisits(nodes: seq<TraverseNode>, start: Id, x: Id, d: nat)
    requires Rising(VisitsOf(start, nodes))
    ensures Lists(nodes, x, d) <==> x != start && (x, d) in VisitsOf(start, nodes)
  {
    var vs := VisitsOf(start, nodes);
    assert vs[0] == (start, 0);
    if i :| 0 <= i < |nodes| && nodes[i].id == x && nodes[i].depth == d {
      var k := i + 1;
      assert vs[k] == (x, d);
    }
    if x != start && (x, d) in vs {
      var k :| 0 <= k < |vs| && vs[k] == (x, d);
      assert nodes[k - 1].id == x && nodes[k - 1].depth == d;
    }
  }

  /** The queue runs empty: the visits are the distances, so the records are what is promised. */
  lemma QueueEmpty(order: Visits, visited: set<Id>, nodes: seq<TraverseNode>, units: seq<MemoryUnit>,
                   direction: Direction, types: Option<seq<LinkType>>, start: Id, limit: nat)
    requires Live(units, start)
    requires var edges := EdgesFrom(units, direction, types);
             Orderly(order, edges, start, limit) && Expanded(order, |order|, edges, limit)
    requires Recorded(order, visited, nodes, units, start)
    ensures TraversesGraph(nodes, EdgesOver(order, EdgesFrom(units, direction, types), limit), units,
                           EdgesFrom(units, direction, types), start, limit)
  {
    var edges := EdgesFrom(units, direction, types);
    EdgesOfLive(order, units, direction, types, limit);
    NodesRising(order, nodes, units, start);
    forall x: Id, d: nat
      ensures Lists(nodes, x, d) <==> x != start && Live(units, x) && d <= limit && IsDistance(edges, start, x, d) {
      ListedExactly(order, nodes, units, start, x, d);
      DepthsAreDistances(order, edges, start, limit, x, d);
    }
  }

  lemma NodesRising(order: Visits, nodes: seq<TraverseNode>, units: seq<MemoryUnit>, start: Id)
    requires Rising(order) && VisitsOf(start, nodes) == Filter(order, LiveVisit(units))
    ensures forall i, j :: 0 <= i < j < |nodes| ==> nodes[i].id != nodes[j].id && nodes[i].depth <= nodes[j].depth
  {
    FilterRising(order, LiveVisit(units));
    RisingNodes(nodes, start);
  }

  lemma VisitOfNode(nodes: seq<TraverseNode>, start: Id, i: nat)
    requires i < |nodes|
    ensures |VisitsOf(start, nodes)| == |nodes| + 1 && VisitsOf(start, nodes)[i + 1] == (nodes[i].id, nodes[i].depth)
  {
  }

  lemma RisingNodes(nodes: seq<TraverseNode>, start: Id)
    requires Rising(VisitsOf(start, nodes))
    ensures forall i, j :: 0 <= i < j < |nodes| ==> nodes[i].id != nodes[j].id && nodes[i].depth <= nodes[j].depth
  {
    var vs := VisitsOf(start, nodes);
    forall i, j | 0 <= i < j < |nodes| ensures nodes[i].id != nodes[j].id && nodes[i].depth <= nodes[j].depth {
      VisitOfNode(nodes, start, i);
      VisitOfNode(nodes, start, j);
      var p, q := i + 1, j + 1;
      assert vs[p].0 != vs[q].0 && vs[p].1 <= vs[q].1;
    }
  }

  // ----- the queue runs empty -----

  ghost function Universe(units: seq<MemoryUnit>, start: Id): set<Id> {
    {start} + (set u | u in units :: u.id) + (set u, l | u in units && l in u.links :: l.target)
  }

  lemma {:induction false} OutCandidatesMembers(links: seq<Link>)
    ensures forall c :: c in OutCandidates(links) <==> c.1 in links && c.0 == c.1.target
  {
    if links != [] {
      var n := |links| - 1;
      OutCandidatesMembers(links[..n]);
      assert links == links[..n] + [links[n]];
    }
  }

  lemma {:induction false} PointingMembers(holder: Id, links: seq<Link>, id: Id)
    ensures forall c :: c in Pointing(holder, links, id) <==> c.0 == holder && c.1 in links && c.1.target == id
  {
    if links != [] {
      var n := |links| - 1;
      PointingMembers(holder, links[..n], id);
      assert links == links[..n] + [links[n]];
    }
  }

  lemma {:induction false} InCandidatesMembers(units: seq<MemoryUnit>, id: Id)
    ensures forall c :: c in InCandidates(units, id) <==>
            exists u :: u in units && c.0 == u.id && c.1 in u.links && c.1.target == id
  {
    if units != [] {
      var n := |units| - 1;
      InCandidatesMembers(units[..n], id);
      PointingMembers(units[n].id, units[n].links, id);
      assert units == units[..n] + [units[n]];
    }
  }

  lemma {:induction false} ViewsMembers(from: Id, candidates: seq<Candidate>, types: Option<seq<LinkType>>)
    ensures forall e :: e in Views(from, candidates, types) <==>
            exists c :: c in candidates && Allowed(types, c.1) && e == View(from, c)
  {
    if candidates != [] {
      var n := |candidates| - 1;
      ViewsMembers(from, candidates[..n], types);
      assert candidates == candidates[..n] + [candidates[n]];
    }
  }

  lemma EdgesStayInUniverse(units: seq<MemoryUnit>, direction: Direction, types: Option<seq<LinkType>>, start: Id,
                            y: Id, e: EdgeView)
    requires e in EdgesFrom(units, direction, types)(y)
    ensures e.to in Universe(units, start)
  {
    var u := Find(units, y).value;
    var candidates := Candidates(units, u, y, direction);
    ViewsMembers(y, candidates, types);
    OutCandidatesMembers(u.links);
    InCandidatesMembers(units, y);
    var c :| c in candidates && Allowed(types, c.1) && e == View(y, c);
  }

  lemma VisitsBounded(order: Visits, units: seq<MemoryUnit>, direction: Direction, types: Option<seq<LinkType>>,
                      start: Id, limit: nat)
    requires Orderly(order, EdgesFrom(units, direction, types), start, limit)
    ensures |order| <= |Universe(units, start)|
  {
    var edges := EdgesFrom(units, direction, types);
    forall i | 0 <= i < |order| ensures order[i].0 in Universe(units, start) {
      if order[i].1 > 0 {
        var y :| Walk(edges, start, y, order[i].1 - 1) && StepsTo(edges, y, order[i].0);
        var e :| e in edges(y) && e.to == order[i].0;
        EdgesStayInUniverse(units, direction, types, start, y, e);
      }
    }
    DistinctBounded(order, Universe(units, start));
  }

  lemma {:induction false} DistinctBounded(order: Visits, universe: set<Id>)
    requires Rising(order) && forall i :: 0 <= i < |order| ==> order[i].0 in universe
    ensures |order| <= |universe|
  {
    if order != [] {
      var n := |order| - 1;
      DistinctBounded(order[..n], universe - {order[n].0});
    }
  }

  /** The state between two turns of the queue loop, `head` nodes having been taken from the queue. */
  ghost predicate Turn(order: Visits, head: nat, queue: Visits, visited: set<Id>, nodes: seq<TraverseNode>,
                       recorded: seq<EdgeView>,
                       units: seq<MemoryUnit>, edges: Id -> seq<EdgeView>, start: Id, limit: nat) {
    && head <= |order| && queue == order[head..]
    && Orderly(order, edges, start, limit) && Expanded(order, head, edges, limit) && Near(order, head)
    && Recorded(order, visited, nodes, units, start)
    && recorded == EdgesOver(order[..head], edges, limit)
  }

  /** A visited node at the depth limit, or without a unit, is passed over. */
  lemma PassOver(order: Visits, head: nat, edges: Id -> seq<EdgeView>, start: Id, limit: nat)
    requires head < |order| && Orderly(order, edges, start, limit) && Expanded(order, head, edges, limit) &&
             Near(order, head)
    requires order[head].1 >= limit || edges(order[head].0) == []
    ensures Expanded(order, head + 1, edges, limit) && Near(order, head + 1)
    ensures EdgesOver(order[..head + 1], edges, limit) == EdgesOver(order[..head], edges, limit)
  {
    assert order[..head + 1][..head] == order[..head];
    if head + 1 < |order| {
      assert order[head].1 <= order[head + 1].1;
    }
  }

  lemma SkipTurn(order: Visits, head: nat, queue: Visits, visited: set<Id>, nodes: seq<TraverseNode>,
                 recorded: seq<EdgeView>, units: seq<MemoryUnit>, edges: Id -> seq<EdgeView>, start: Id, limit: nat)
    requires Turn(order, head, queue, visited, nodes, recorded, units, edges, start, limit) && queue != []
    requires queue[0].1 >= limit || edges(queue[0].0) == []
    ensures Turn(order, head + 1, queue[1..], visited, nodes, recorded, units, edges, start, limit)
  {
    PassOver(order, head, edges, start, limit);
  }

  lemma BeginTurn(order: Visits, head: nat, queue: Visits, visited: set<Id>, nodes: seq<TraverseNode>,
                  recorded: seq<EdgeView>, units: seq<MemoryUnit>, edges: Id -> seq<EdgeView>, start: Id, limit: nat)
    requires Turn(order, head, queue, visited, nodes, recorded, units, edges, start, limit) && queue != []
    requires queue[0].1 < limit
    ensures head < |order| && order[head] == queue[0] && recorded == EdgesOver(order[..head], edges, limit)
    ensures Exploring(order, head, queue[1..], visited, nodes, units, edges, start, limit)
  {
    assert Expanding(order, head, edges, start, limit);
  }

  lemma EndTurn(order: Visits, order': Visits, head: nat, queue: Visits, visited: set<Id>, nodes: seq<TraverseNode>,
                units: seq<MemoryUnit>, edges: Id -> seq<EdgeView>, start: Id, limit: nat)
    requires Exploring(order', head, queue, visited, nodes, units, edges, start, limit)
    requires head < |order| && order <= order' && Covered(order', edges(order[head].0), order[head].1 + 1)
    ensures Turn(order', head + 1, queue, visited, nodes,
                 EdgesOver(order[..head], edges, limit) + edges(order[head].0), units, edges, start, limit)
  {
    NextHead(order', head, edges, start, limit);
    assert order'[..head + 1][..head] == order[..head];
  }

  method TakeTurn(units: seq<MemoryUnit>, unitMap: map<Id, MemoryUnit>, direction: Direction,
                  types: Option<seq<LinkType>>, limit: nat,
                  queue: Visits, visited: set<Id>, nodes: seq<TraverseNode>, recorded: seq<EdgeView>,
                  ghost order: Visits, ghost head: nat, ghost start: Id)
    returns (queue': Visits, visited': set<Id>, nodes': seq<TraverseNode>, recorded': seq<EdgeView>,
             ghost order': Visits)
    requires Indexes(unitMap, units) && queue != []
    requires Turn(order, head, queue, visited, nodes, recorded, units, EdgesFrom(units, direction, types), start, limit)
    ensures Turn(order', head + 1, queue', visited', nodes', recorded', units, EdgesFrom(units, direction, types),
                 start, limit)
  {
    ghost var edges := EdgesFrom(units, direction, types);
    var (id, depth) := queue[0];
    queue', visited', nodes', recorded', order' := queue[1..], visited, nodes, recorded, order;
    if depth >= limit || id !in unitMap {
      SkipTurn(order, head, queue, visited, nodes, recorded, units, edges, start, limit);
      return;
    }
    BeginTurn(order, head, queue, visited, nodes, recorded, units, edges, start, limit);
    var candidates := CollectCandidates(units, unitMap[id], id, direction);
    visited', nodes', recorded', queue', order' :=
      Expand(id, depth, candidates, types, unitMap, visited, nodes, recorded, queue', order, head, edges, units, start,
             limit);
    EndTurn(order, order', head, queue', visited', nodes', units, edges, start, limit);
  }

  // ----- what the edges are -----

  /** `e` shows a link as an edge from the expanded node `from`: all its data, and an empty text for no evidence. */
  ghost predicate Shows(e: EdgeView, from: Id, to: Id, l: Link) {
    && e.from == from && e.to == to && e.kind == l.kind && e.strength == l.strength && e.confidence == l.confidence
    && e.activationCount == l.activationCount && e.evidence == if l.note.Some? then l.note.value else ""
  }

  /** `e` shows a link of the node, of a type that is asked for. */
  ghost predicate OutEdge(unit: MemoryUnit, types: Option<seq<LinkType>>, id: Id, e: EdgeView) {
    exists l :: l in unit.links && (types == None || l.kind in types.value) && Shows(e, id, l.target, l)
  }

  /** `e` shows a link, of any unit, that points at the node, of a type that is asked for. */
  ghost predicate InEdge(units: seq<MemoryUnit>, types: Option<seq<LinkType>>, id: Id, e: EdgeView) {
    exists u, l :: u in units && l in u.links && l.target == id && (types == None || l.kind in types.value)
      && Shows(e, id, u.id, l)
  }

  lemma ViewShows(e: EdgeView, from: Id, c: Candidate)
    ensures e == View(from, c) <==> Shows(e, from, c.0, c.1)
  {
  }

  lemma OutEdgeMeaning(unit: MemoryUnit, types: Option<seq<LinkType>>, id: Id, e: EdgeView)
    ensures e in Views(id, OutCandidates(unit.links), types) <==> OutEdge(unit, types, id, e)
  {
    ViewsMembers(id, OutCandidates(unit.links), types);
    OutCandidatesMembers(unit.links);
    if OutEdge(unit, types, id, e) {
      var l :| l in unit.links && (types == None || l.kind in types.value) && Shows(e, id, l.target, l);
      assert (l.target, l) in OutCandidates(unit.links);
      ViewShows(e, id, (l.target, l));
    }
    if c :| c in OutCandidates(unit.links) && Allowed(types, c.1) && e == View(id, c) {
      ViewShows(e, id, c);
    }
  }

  lemma InEdgeMeaning(units: seq<MemoryUnit>, types: Option<seq<LinkType>>, id: Id, e: EdgeView)
    ensures e in Views(id, InCandidates(units, id), types) <==> InEdge(units, types, id, e)
  {
    ViewsMembers(id, InCandidates(units, id), types);
    InCandidatesMembers(units, id);
    if InEdge(units, types, id, e) {
      var u, l :| u in units && l in u.links && l.target == id && (types == None || l.kind in types.value)
        && Shows(e, id, u.id, l);
      assert (u.id, l) in InCandidates(units, id);
      ViewShows(e, id, (u.id, l));
    }
    if c :| c in InCandidates(units, id) && Allowed(types, c.1) && e == View(id, c) {
      ViewShows(e, id, c);
    }
  }

  /** An outgoing edge is an allowed link of the node, an incoming edge an allowed link that points at it. */
  lemma EdgeMeaning(units: seq<MemoryUnit>, direction: Direction, types: Option<seq<LinkType>>, id: Id, e: EdgeView)
    requires Live(units, id)
    ensures e in EdgesFrom(units, direction, types)(id) <==>
            || (direction != Incoming && OutEdge(Find(units, id).value, types, id, e))
            || (direction != Outgoing && InEdge(units, types, id, e))
  {
    var unit := Find(units, id).value;
    OutEdgeMeaning(unit, types, id, e);
    InEdgeMeaning(units, types, id, e);
    ViewsSplit(id, OutCandidates(unit.links), InCandidates(units, id), types);
  }

  /** `e` is an edge of the node in this direction. */
  ghost predicate EdgeOf(units: seq<MemoryUnit>, direction: Direction, types: Option<seq<LinkType>>, id: Id,
                         e: EdgeView) {
    Live(units, id) && (|| (direction != Incoming && OutEdge(Find(units, id).value, types, id, e))
                        || (direction != Outgoing && InEdge(units, types, id, e)))
  }

  lemma {:induction false} EdgesOverMembers(order: Visits, edges: Id -> seq<EdgeView>, limit: nat)
    ensures forall e :: e in EdgesOver(order, edges, limit) <==>
              exists v: (Id, nat) :: v in order && v.1 < limit && e in edges(v.0)
  {
    if order != [] {
      var n := |order| - 1;
      EdgesOverMembers(order[..n], edges, limit);
      assert order == order[..n] + [order[n]];
    }
  }

  /** `e` is an edge of the start or of a listed node above the limit. */
  ghost predicate FromExpanded(e: EdgeView, nodes: seq<TraverseNode>, units: seq<MemoryUnit>, direction: Direction,
                               types: Option<seq<LinkType>>, start: Id, limit: nat) {
    || (0 < limit && EdgeOf(units, direction, types, start, e))
    || exists n :: n in nodes && n.depth < limit && EdgeOf(units, direction, types, n.id, e)
  }

  /** Of the start and the listed nodes above the limit all edges are recorded, and no others. */
  ghost predicate RecordsEdges(recorded: seq<EdgeView>, nodes: seq<TraverseNode>, units: seq<MemoryUnit>,
                               direction: Direction, types: Option<seq<LinkType>>, start: Id, limit: nat) {
    forall e :: e in recorded <==> FromExpanded(e, nodes, units, direction, types, start, limit)
  }

  lemma EdgesRecorded(nodes: seq<TraverseNode>, recorded: seq<EdgeView>, units: seq<MemoryUnit>, direction: Direction,
                      types: Option<seq<LinkType>>, start: Id, limit: nat)
    requires TraversesGraph(nodes, recorded, units, EdgesFrom(units, direction, types), start, limit)
    ensures RecordsEdges(recorded, nodes, units, direction, types, start, limit)
  {
    EdgesOverMembers(VisitsOf(start, nodes), EdgesFrom(units, direction, types), limit);
    forall e ensures e in recorded <==> FromExpanded(e, nodes, units, direction, types, start, limit) {
      EdgeFromVisit(e, nodes, units, direction, types, start, limit);
    }
  }

  lemma EdgeFromVisit(e: EdgeView, nodes: seq<TraverseNode>, units: seq<MemoryUnit>, direction: Direction,
                      types: Option<seq<LinkType>>, start: Id, limit: nat)
    ensures FromExpanded(e, nodes, units, direction, types, start, limit) <==>
            exists v: (Id, nat) :: v in VisitsOf(start, nodes) && v.1 < limit
              && e in EdgesFrom(units, direction, types)(v.0)
  {
    var order := VisitsOf(start, nodes);
    if v: (Id, nat) :| v in order && v.1 < limit && e in EdgesFrom(units, direction, types)(v.0) {
      VisitOf(nodes, start, v);
      EdgeOfMeaning(units, direction, types, v.0, e);
    }
    if 0 < limit && EdgeOf(units, direction, types, start, e) {
      VisitOf(nodes, start, (start, 0));
      EdgeOfMeaning(units, direction, types, start, e);
    }
    if n :| n in nodes && n.depth < limit && EdgeOf(units, direction, types, n.id, e) {
      VisitOf(nodes, start, (n.id, n.depth));
      EdgeOfMeaning(units, direction, types, n.id, e);
    }
  }

  lemma EdgeOfMeaning(units: seq<MemoryUnit>, direction: Direction, types: Option<seq<LinkType>>, id: Id, e: EdgeView)
    ensures e in EdgesFrom(units, direction, types)(id) <==> EdgeOf(units, direction, types, id, e)
  {
    if Live(units, id) {
      EdgeMeaning(units, direction, types, id, e);
    }
  }

  lemma VisitOf(nodes: seq<TraverseNode>, start: Id, v: (Id, nat))
    ensures v in VisitsOf(start, nodes) <==> v == (start, 0) || exists n :: n in nodes && v == (n.id, n.depth)
  {
    var order := VisitsOf(start, nodes);
    if n :| n in nodes && v == (n.id, n.depth) {
      var i :| 0 <= i < |nodes| && nodes[i] == n;
      assert order[i + 1] == v;
    }
    if v in order && v != (start, 0) {
      var i :| 0 <= i < |order| && order[i] == v;
      assert nodes[i - 1] in nodes;
    }
    assert order[0] == (start, 0);
  }

  /** A traversal one level deeper, or any number, lists the same nodes up to the depth, at the same depths. */
  lemma ShallowerTraversal(nodes: seq<TraverseNode>, recorded: seq<EdgeView>, deeper: seq<TraverseNode>,
                           more: seq<EdgeView>, units: seq<MemoryUnit>, edges: Id -> seq<EdgeView>, start: Id,
                           limit: nat, further: nat)
    requires limit <= further && TraversesGraph(nodes, recorded, units, edges, start, limit)
    requires TraversesGraph(deeper, more, units, edges, start, further)
    ensures forall n :: n in nodes <==> n in deeper && n.depth <= limit
  {
    forall n ensures n in nodes <==> n in deeper && n.depth <= limit {
      ListedNode(nodes, recorded, units, edges, start, limit, n);
      ListedNode(deeper, more, units, edges, start, further, n);
    }
  }

  lemma ListedNode(nodes: seq<TraverseNode>, recorded: seq<EdgeView>, units: seq<MemoryUnit>,
                   edges: Id -> seq<EdgeView>, start: Id, limit: nat, n: TraverseNode)
    requires TraversesGraph(nodes, recorded, units, edges, start, limit)
    ensures n in nodes <==>
            && n.id != start && Live(units, n.id) && n.depth <= limit && IsDistance(edges, start, n.id, n.depth)
            && n.importance == Find(units, n.id).value.importance
  {
    assert Lists(nodes, n.id, n.depth) <==>
           n.id != start && Live(units, n.id) && n.depth <= limit && IsDistance(edges, start, n.id, n.depth);
    if Lists(nodes, n.id, n.depth) {
      var i :| 0 <= i < |nodes| && nodes[i].id == n.id && nodes[i].depth == n.depth;
      assert nodes[i] in nodes;
    }
    if n in nodes {
      var i :| 0 <= i < |nodes| && nodes[i] == n;
    }
  }

  /** The nodes and edges of the graph around the start, up to the limit. */
  ghost predicate Traverses(nodes: seq<TraverseNode>, recorded: seq<EdgeView>, units: seq<MemoryUnit>,
                            direction: Direction, types: Option<seq<LinkType>>, start: Id, limit: nat) {
    && TraversesGraph(nodes, recorded, units, EdgesFrom(units, direction, types), start, limit)
    && RecordsEdges(recorded, nodes, units, direction, types, start, limit)
  }

  method Traverse(units: seq<MemoryUnit>, start: Id, maxDepth: nat, direction: Direction, types: Option<seq<LinkType>>)
    returns (r: Traversed)
    ensures !Live(units, start) ==> r == NotFound(start)
    ensures Live(units, start) ==> r.Found?
    ensures Live(units, start) && 1 <= maxDepth <= 5 ==>
              Traverses(r.nodes, r.edges, units, direction, types, start, maxDepth)
    ensures Live(units, start) && maxDepth == 0 ==> Traverses(r.nodes, r.edges, units, direction, types, start, 1)
    ensures Live(units, start) && maxDepth > 5 ==> Traverses(r.nodes, r.edges, units, direction, types, start, 5)
  {
    var limit := Clamp(maxDepth, 1, 5);
    var unitMap := IndexUnits(units);
    if start !in unitMap {
      return NotFound(start);
    }
    ghost var edges := EdgesFrom(units, direction, types);
    var visited, nodes, recorded, queue := {start}, [], [], [(start, 0)];
    ghost var order, head: nat := queue, 0;
    StartTurn(units, edges, start, limit);
    while queue != []
      invariant Turn(order, head, queue, visited, nodes, recorded, units, edges, start, limit)
      decreases |Universe(units, start)| - head
    {
      queue, visited, nodes, recorded, order :=
        TakeTurn(units, unitMap, direction, types, limit, queue, visited, nodes, recorded, order, head, start);
      head := head + 1;
      VisitsBounded(order, units, direction, types, start, limit);
    }
    assert order[..head] == order;
    QueueEmpty(order, visited, nodes, units, direction, types, start, limit);
    EdgesRecorded(nodes, recorded, units, direction, types, start, limit);
    return Found(nodes, recorded);
  }

  lemma StartTurn(units: seq<MemoryUnit>, edges: Id -> seq<EdgeView>, start: Id, limit: nat)
    requires Live(units, start)
    ensures Turn([(start, 0)], 0, [(start, 0)], {start}, [], [], units, edges, start, limit)
  {
    var order: Visits := [(start, 0)];
    assert order[0].0 == start;
    assert order[1..] == [];
    assert Filter(order, LiveVisit(units)) == order;
    assert VisitsOf(start, []) == order;
  }

  // ----- directions -----

  /** Each link made to point at the node it came from. */
  function Turned(candidates: seq<Candidate>): seq<Link> {
    if candidates == [] then []
    else
      var n := |candidates| - 1;
      Turned(candidates[..n]) + [candidates[n].1.(target := candidates[n].0)]
  }

  function WithTurnedLinks(us: seq<MemoryUnit>, units: seq<MemoryUnit>): seq<MemoryUnit> {
    if us == [] then []
    else
      var n := |us| - 1;
      WithTurnedLinks(us[..n], units) + [us[n].(links := Turned(InCandidates(units, us[n].id)))]
  }

  /** The graph with every link reversed. */
  function Reversed(units: seq<MemoryUnit>): seq<MemoryUnit> {
    WithTurnedLinks(units, units)
  }

  lemma {:induction false} FindTurned(us: seq<MemoryUnit>, units: seq<MemoryUnit>, id: Id)
    ensures Find(WithTurnedLinks(us, units), id) ==
            if Live(us, id) then Some(Find(us, id).value.(links := Turned(InCandidates(units, id)))) else None
  {
    if us != [] {
      var n := |us| - 1;
      FindTurned(us[..n], units, id);
      var before, last := WithTurnedLinks(us[..n], units), us[n].(links := Turned(InCandidates(units, us[n].id)));
      assert (before + [last])[..|before|] == before;
    }
  }

  lemma {:induction false} TurnedViews(id: Id, candidates: seq<Candidate>, types: Option<seq<LinkType>>)
    ensures Views(id, OutCandidates(Turned(candidates)), types) == Views(id, candidates, types)
  {
    if candidates != [] {
      var n := |candidates| - 1;
      TurnedViews(id, candidates[..n], types);
      var links, l := Turned(candidates[..n]), candidates[n].1.(target := candidates[n].0);
      assert (links + [l])[..|links|] == links;
      var out := OutCandidates(links);
      assert (out + [(l.target, l)])[..|out|] == out;
    }
  }

  /** The incoming edges of a node are its outgoing edges in the reversed graph. */
  lemma IncomingIsReversedOutgoing(units: seq<MemoryUnit>, types: Option<seq<LinkType>>, id: Id)
    ensures EdgesFrom(units, Incoming, types)(id) == EdgesFrom(Reversed(units), Outgoing, types)(id)
    ensures Live(units, id) == Live(Reversed(units), id)
  {
    FindTurned(units, units, id);
    TurnedViews(id, InCandidates(units, id), types);
  }

  lemma {:induction false} WalkCongruent(edges: Id -> seq<EdgeView>, edges': Id -> seq<EdgeView>, start: Id, x: Id,
                                         k: nat)
    requires forall id :: edges(id) == edges'(id)
    ensures Walk(edges, start, x, k) == Walk(edges', start, x, k)
    decreases k
  {
    if k > 0 {
      forall y
        ensures Walk(edges, start, y, k - 1) == Walk(edges', start, y, k - 1)
        ensures StepsTo(edges, y, x) == StepsTo(edges', y, x) {
        WalkCongruent(edges, edges', start, y, k - 1);
      }
    }
  }

  /**
   Traversing incoming edges lists the same nodes at the same depths as traversing outgoing edges of the reversed
   graph.
   */
  lemma IncomingVisitsReversed(units: seq<MemoryUnit>, types: Option<seq<LinkType>>, start: Id, limit: nat,
                               nodes: seq<TraverseNode>, recorded: seq<EdgeView>, nodes': seq<TraverseNode>,
                               recorded': seq<EdgeView>, x: Id, d: nat)
    requires TraversesGraph(nodes, recorded, units, EdgesFrom(units, Incoming, types), start, limit)
    requires TraversesGraph(nodes', recorded', Reversed(units), EdgesFrom(Reversed(units), Outgoing, types), start,
                            limit)
    ensures Lists(nodes, x, d) <==> Lists(nodes', x, d)
  {
    var edges, edges' := EdgesFrom(units, Incoming, types), EdgesFrom(Reversed(units), Outgoing, types);
    forall id ensures edges(id) == edges'(id) {
      IncomingIsReversedOutgoing(units, types, id);
    }
    IncomingIsReversedOutgoing(units, types, x);
    forall k: nat ensures Walk(edges, start, x, k) == Walk(edges', start, x, k) {
      WalkCongruent(edges, edges', start, x, k);
    }
  }
}
