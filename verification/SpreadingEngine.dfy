/** `spread_multi_hop_fused`: the hop loop, proved to compute the run of waves whatever the order of its hash maps. */
module SpreadingEngine {
  import opened MemoryModel
  import opened Sorting
  import opened Sums
  import opened Seeds
  import opened Energy
  import opened Spreading
  import opened SpreadingRuns
  import opened SpreadingOrder

  // ----- seeds from the fused scores -----

  ghost function SomeListing(fused: map<Id, (real, Channel)>): (items: seq<SeedItem>)
    ensures IsListing(items, fused)
  {
    ListingExists(fused);
    var items: seq<SeedItem> :| IsListing(items, fused);
    items
  }

  lemma {:induction false} ListingExists(fused: map<Id, (real, Channel)>)
    ensures exists items: seq<SeedItem> :: IsListing(items, fused)
    decreases |fused|
  {
    if fused == map[] {
      assert IsListing<Id, (real, Channel)>([], fused);
    } else {
      var id :| id in fused;
      var rest := fused - {id};
      assert |rest| < |fused| by {
        assert fused.Keys == rest.Keys + {id};
      }
      ListingExists(rest);
      var items: seq<SeedItem> :| IsListing(items, rest);
      ListingPush(items, fused, id);
    }
  }

  lemma ListingPush(items: seq<SeedItem>, fused: map<Id, (real, Channel)>, id: Id)
    requires id in fused && IsListing(items, fused - {id})
    ensures IsListing(items + [(id, fused[id])], fused)
  {
    var longer := items + [(id, fused[id])];
    forall k | k in fused ensures (k, fused[k]) in longer {
      if k != id {
        assert k in fused - {id};
        assert (k, fused[k]) in items;
      } else {
        assert longer[|items|] == (k, fused[k]);
      }
    }
  }

  /** The seeds of a fused-score map: an arbitrary listing of it, sorted by score and then id. */
  ghost function SeedsOf(fused: map<Id, (real, Channel)>, importance: map<Id, real>, p: Params): seq<Activated> {
    var items := SomeListing(fused);
    SeedLevel(Sort(items, ScoreThenId), TopScore(items), importance, p)
  }

  ghost predicate IsTop(m: real, items: seq<SeedItem>) {
    && m >= 0.0 && (forall x :: x in items ==> x.1.0 <= m)
    && (m == 0.0 || exists x :: x in items && x.1.0 == m)
  }

  lemma {:induction false} TopScoreIsTop(items: seq<SeedItem>)
    ensures IsTop(TopScore(items), items)
  {
    if items != [] {
      var n := |items| - 1;
      TopScoreIsTop(items[..n]);
      assert items == items[..n] + [items[n]];
      assert items[n] in items;
    }
  }

  /** The listing order of the map does not show in the seeds. */
  lemma SeedsOrderFree(a: seq<SeedItem>, b: seq<SeedItem>, fused: map<Id, (real, Channel)>)
    requires IsListing(a, fused) && IsListing(b, fused)
    ensures Sort(a, ScoreThenId) == Sort(b, ScoreThenId) && TopScore(a) == TopScore(b)
  {
    ListingMultiset(a, b, fused);
    assert TieFree(a, ScoreThenId);
    SortErasesOrder(a, b, ScoreThenId);
    TopScoreIsTop(a);
    TopScoreIsTop(b);
    forall x ensures x in a <==> x in b {
      ListingMember(a, fused, x);
      ListingMember(b, fused, x);
    }
  }

  lemma SortedListing(items: seq<SeedItem>, fused: map<Id, (real, Channel)>)
    requires IsListing(items, fused)
    ensures IsListing(Sort(items, ScoreThenId), fused) && DistinctIds(Sort(items, ScoreThenId))
  {
    SortPermutes(items, ScoreThenId);
    ListingPermutes(items, Sort(items, ScoreThenId), fused);
  }

  lemma SeedsOfWellFormed(fused: map<Id, (real, Channel)>, importance: map<Id, real>, p: Params)
    ensures SeedsWellFormed(SeedsOf(fused, importance, p), p)
  {
    var items := SomeListing(fused);
    SortedListing(items, fused);
    SeedLevelMembers(Sort(items, ScoreThenId), TopScore(items), importance, p);
  }

  /** The largest fused score, or zero if none is positive. */
  ghost predicate IsTopScore(m: real, fused: map<Id, (real, Channel)>) {
    && m >= 0.0 && (forall id :: id in fused ==> fused[id].0 <= m)
    && (m == 0.0 || exists id :: id in fused && fused[id].0 == m)
  }

  lemma TopScoreOf(m: real, fused: map<Id, (real, Channel)>, items: seq<SeedItem>)
    requires IsTopScore(m, fused) && IsListing(items, fused)
    ensures TopScore(items) == m
  {
    TopScoreIsTop(items);
    forall x ensures x in items <==> x.0 in fused && fused[x.0] == x.1 {
      ListingMember(items, fused, x);
    }
    if m > 0.0 {
      var id :| id in fused && fused[id].0 == m;
      assert (id, fused[id]) in items;
    }
  }

  /** The share of the best score, scaled by the query match and raised by the importance, but not above the cap. */
  ghost predicate IsShare(energy: real, score: real, m: real, weight: real, p: Params) {
    var share := if m > 0.0 then score / m else 0.0;
    var raised := share * p.queryMatch * (1.0 + weight * p.importanceWeight);
    energy == if raised < p.cap then raised else p.cap
  }

  lemma SeedEnergyIsShare(energy: real, score: real, m: real, weight: real, p: Params)
    ensures energy == SeedEnergy(score, m, weight, p) <==> IsShare(energy, score, m, weight, p)
  {
  }

  /** `a` starts at its memory with its share of the best fused score, and names the channel that found it. */
  ghost predicate IsSeed(a: Activated, fused: map<Id, (real, Channel)>, m: real, importance: map<Id, real>, p: Params) {
    && a.id in fused
    && IsShare(a.energy, fused[a.id].0, m, if a.id in importance then importance[a.id] else 0.0, p)
    && a.trace == [Hop(None, a.id, None, Some(fused[a.id].1), 0, a.energy, a.energy)]
  }

  ghost predicate NodeOf(a: Activated, items: seq<SeedItem>, top: real, importance: map<Id, real>, p: Params) {
    exists x :: x in items && a == SeedNode(x, top, importance, p)
  }

  lemma NodeExactly(a: Activated, items: seq<SeedItem>, fused: map<Id, (real, Channel)>, m: real,
                    importance: map<Id, real>, p: Params)
    requires IsListing(items, fused)
    ensures NodeOf(a, items, m, importance, p) <==> IsSeed(a, fused, m, importance, p)
  {
    if NodeOf(a, items, m, importance, p) {
      var x :| x in items && a == SeedNode(x, m, importance, p);
      ListingMember(items, fused, x);
      NodeIsSeed(a, x, fused, m, importance, p);
    }
    if IsSeed(a, fused, m, importance, p) {
      var x := (a.id, fused[a.id]);
      ListingMember(items, fused, x);
      NodeIsSeed(a, x, fused, m, importance, p);
    }
  }

  lemma NodeIsSeed(a: Activated, x: SeedItem, fused: map<Id, (real, Channel)>, m: real, importance: map<Id, real>,
                   p: Params)
    requires x.0 in fused && fused[x.0] == x.1
    ensures a == SeedNode(x, m, importance, p) <==> a.id == x.0 && IsSeed(a, fused, m, importance, p)
  {
    SeedEnergyIsShare(a.energy, x.1.0, m, ImportanceOf(importance, x.0), p);
  }

  lemma {:induction false} SeedLevelExactly(items: seq<SeedItem>, top: real, importance: map<Id, real>, p: Params)
    ensures forall a :: a in SeedLevel(items, top, importance, p) <==>
              a.energy >= p.threshold && NodeOf(a, items, top, importance, p)
  {
    if items != [] {
      var n := |items| - 1;
      SeedLevelExactly(items[..n], top, importance, p);
      assert items == items[..n] + [items[n]];
    }
  }

  /** By falling fused score and, among equals, rising id. */
  ghost predicate BetterSeed(x: Id, y: Id, fused: map<Id, (real, Channel)>) {
    x in fused && y in fused && (fused[x].0 > fused[y].0 || (fused[x].0 == fused[y].0 && x < y))
  }

  ghost predicate BestFirst(seeds: seq<Activated>, fused: map<Id, (real, Channel)>) {
    forall i, j :: 0 <= i < j < |seeds| ==> BetterSeed(seeds[i].id, seeds[j].id, fused)
  }

  lemma AppendSeed(before: seq<Activated>, last: Activated, fused: map<Id, (real, Channel)>)
    requires BestFirst(before, fused) && forall a :: a in before ==> BetterSeed(a.id, last.id, fused)
    ensures BestFirst(before + [last], fused)
  {
    forall i | 0 <= i < |before| ensures BetterSeed(before[i].id, last.id, fused) {
      assert before[i] in before;
    }
  }

  lemma {:induction false} SeedLevelOrder(items: seq<SeedItem>, fused: map<Id, (real, Channel)>, top: real,
                                          importance: map<Id, real>, p: Params)
    requires Ordered(items, ScoreThenId) && DistinctIds(items)
    requires forall x :: x in items ==> x.0 in fused && fused[x.0] == x.1
    ensures BestFirst(SeedLevel(items, top, importance, p), fused)
  {
    if items != [] {
      var n := |items| - 1;
      SeedLevelOrder(items[..n], fused, top, importance, p);
      LastIsWorst(items, fused, top, importance, p);
      AppendSeed(SeedLevel(items[..n], top, importance, p), SeedNode(items[n], top, importance, p), fused);
    }
  }

  lemma LastIsWorst(items: seq<SeedItem>, fused: map<Id, (real, Channel)>, top: real, importance: map<Id, real>,
                    p: Params)
    requires items != [] && Ordered(items, ScoreThenId) && DistinctIds(items)
    requires forall x :: x in items ==> x.0 in fused && fused[x.0] == x.1
    ensures var n := |items| - 1;
            forall a :: a in SeedLevel(items[..n], top, importance, p) ==> BetterSeed(a.id, items[n].0, fused)
  {
    var n := |items| - 1;
    SeedLevelExactly(items[..n], top, importance, p);
    assert items[n] in items;
    forall a | a in SeedLevel(items[..n], top, importance, p) ensures BetterSeed(a.id, items[n].0, fused) {
      var x :| x in items[..n] && a == SeedNode(x, top, importance, p);
      var k :| 0 <= k < n && items[k] == x;
      assert !ScoreThenId(items[n], items[k]) && items[k].0 != items[n].0;
    }
  }

  /** The seeds are exactly the fused memories with enough energy, the best first. */
  lemma SeedsExactly(fused: map<Id, (real, Channel)>, importance: map<Id, real>, p: Params, m: real)
    requires IsTopScore(m, fused)
    ensures var seeds := SeedsOf(fused, importance, p);
            && (forall a :: a in seeds <==> IsSeed(a, fused, m, importance, p) && a.energy >= p.threshold)
            && BestFirst(seeds, fused)
  {
    var items := SomeListing(fused);
    var sorted := Sort(items, ScoreThenId);
    TopScoreOf(m, fused, items);
    SortedListing(items, fused);
    SortOrdered(items, ScoreThenId);
    SeedLevelExactly(sorted, m, importance, p);
    forall x | x in sorted ensures x.0 in fused && fused[x.0] == x.1 {
      ListingMember(sorted, fused, x);
    }
    SeedLevelOrder(sorted, fused, m, importance, p);
    assert SeedsOf(fused, importance, p) == SeedLevel(sorted, m, importance, p);
    forall a ensures NodeOf(a, sorted, m, importance, p) <==> IsSeed(a, fused, m, importance, p) {
      NodeExactly(a, sorted, fused, m, importance, p);
    }
  }

  // ----- the state of the loop -----

  type Frontier = seq<(Id, real)>

  /** The loop's variables hold this wave: expanded nodes, frontier with traces on record, results so far. */
  ghost predicate Mirrors(frontier: Frontier, traces: map<Id, seq<Hop>>, expanded: set<Id>, results: seq<Activated>,
                          w: Wave) {
    && expanded == w.reached && results == w.all
    && OnRecord(frontier, traces, w.level)
  }

  ghost predicate OnRecord(frontier: Frontier, traces: map<Id, seq<Hop>>, level: seq<Activated>) {
    && |frontier| == |level|
    && forall i :: 0 <= i < |level| ==>
         frontier[i] == (level[i].id, level[i].energy) && level[i].id in traces && traces[level[i].id] == level[i].trace
  }

  lemma PushOnRecord(frontier: Frontier, traces: map<Id, seq<Hop>>, level: seq<Activated>, a: Activated)
    requires OnRecord(frontier, traces, level) && a.id !in Ids(level)
    ensures OnRecord(frontier + [(a.id, a.energy)], traces[a.id := a.trace], level + [a])
    ensures Ids(level + [a]) == Ids(level) + {a.id}
  {
    forall i | 0 <= i < |level| ensures level[i].id != a.id {
      assert level[i] in level;
    }
  }

  method SeedFrontier(items: seq<SeedItem>, top: real, importance: map<Id, real>, p: Params)
    returns (frontier: Frontier, traces: map<Id, seq<Hop>>, expanded: set<Id>, results: seq<Activated>)
    requires DistinctIds(items)
    ensures Mirrors(frontier, traces, expanded, results, Start(SeedLevel(items, top, importance, p)))
  {
    frontier, traces, expanded, results := [], map[], {}, [];
    for i := 0 to |items|
      invariant Mirrors(frontier, traces, expanded, results, Start(SeedLevel(items[..i], top, importance, p)))
    {
      ghost var level := SeedLevel(items[..i], top, importance, p);
      assert items[..i + 1][..i] == items[..i];
      FreshSeed(items, i, top, importance, p);
      var (id, (score, channel)) := items[i];
      var energy := SeedEnergy(score, top, ImportanceOf(importance, id), p);
      if energy >= p.threshold {
        if id !in expanded {
          var seed := Activated(id, energy, SeedTrace(id, energy, channel));
          PushOnRecord(frontier, traces, level, seed);
          expanded := expanded + {id};
          traces := traces[id := seed.trace];
          results := results + [seed];
          frontier := frontier + [(id, energy)];
        }
      }
    }
    assert items[..|items|] == items;
  }

  lemma FreshSeed(items: seq<SeedItem>, i: nat, top: real, importance: map<Id, real>, p: Params)
    requires i < |items| && DistinctIds(items)
    ensures items[i].0 !in Ids(SeedLevel(items[..i], top, importance, p))
  {
    SeedLevelMembers(items[..i], top, importance, p);
  }

  // ----- one round -----

  /** The round's maps hold what the arrivals so far settle to. */
  ghost predicate Tallied(energies: map<Id, real>, traces: map<Id, seq<Hop>>, arrivals: seq<Arrival>, hop: nat,
                          p: Params) {
    && (forall t :: t in energies <==> Hits(arrivals, t))
    && (forall t :: t in traces <==> Hits(arrivals, t))
    && (forall t :: t in energies && t in traces ==>
        Settle(arrivals, t, hop, p) == Some(Activated(t, energies[t], traces[t])))
  }

  lemma SettleNext(before: seq<Arrival>, a: Arrival, hop: nat, p: Params, t: Id)
    ensures Hits(before + [a], t) <==> Hits(before, t) || a.link.target == t
    ensures Settle(before + [a], t, hop, p) ==
            if a.link.target == t then Some(Absorbed(Settle(before, t, hop, p), a, hop, p))
            else Settle(before, t, hop, p)
    ensures Merges(before + [a]) == Merges(before) + if Hits(before, a.link.target) then 1 else 0
  {
    var s := before + [a];
    assert s[..|before|] == before && s[|before|] == a;
    if Hits(before, t) {
      var i :| 0 <= i < |before| && before[i].link.target == t;
      assert s[i].link.target == t;
    }
    TargetsMembers(before);
  }

  /** One traversal: merge its energy, keep or replace the trace. */
  method Absorb(energies: map<Id, real>, traces: map<Id, seq<Hop>>, merged: nat, target: Id, propagated: real,
                trace: seq<Hop>, hop: nat, p: Params, ghost before: seq<Arrival>, ghost a: Arrival)
    returns (energies': map<Id, real>, traces': map<Id, seq<Hop>>, merged': nat)
    requires Tallied(energies, traces, before, hop, p)
    requires target == a.link.target && propagated == a.energy && trace == TraceOf(a, hop)
    ensures Tallied(energies', traces', before + [a], hop, p)
    ensures merged' + Merges(before) == merged + Merges(before + [a])
  {
    merged' := merged;
    var total := propagated;
    if target in energies {
      merged' := merged + 1;
      total := Merge(energies[target], propagated, p);
    }
    energies' := energies[target := total];
    traces' := traces;
    if target in traces {
      if total == propagated {
        traces' := traces[target := trace];
      }
    } else {
      traces' := traces[target := trace];
    }
    forall t ensures Hits(before + [a], t) <==> Hits(before, t) || target == t
             ensures Settle(before + [a], t, hop, p) ==
                     if target == t then Some(Absorbed(Settle(before, t, hop, p), a, hop, p))
                     else Settle(before, t, hop, p) {
      SettleNext(before, a, hop, p, t);
    }
    SettleNext(before, a, hop, p, target);
  }

  method FollowNode(node: (Id, real), trace: seq<Hop>, top: seq<Link>, expanded: set<Id>, hop: nat, p: Params,
                    energies: map<Id, real>, traces: map<Id, seq<Hop>>, merged: nat, ghost before: seq<Arrival>)
    returns (energies': map<Id, real>, traces': map<Id, seq<Hop>>, merged': nat)
    requires Tallied(energies, traces, before, hop, p) && merged == Merges(before)
    ensures var after := before + Along(Activated(node.0, node.1, trace), top, expanded, hop, p);
            Tallied(energies', traces', after, hop, p) && merged' == Merges(after)
  {
    ghost var source := Activated(node.0, node.1, trace);
    ghost var so := before;
    energies', traces', merged' := energies, traces, merged;
    for i := 0 to |top|
      invariant so == before + Along(source, top[..i], expanded, hop, p)
      invariant Tallied(energies', traces', so, hop, p) && merged' == Merges(so)
    {
      var link := top[i];
      AlongNext(before, source, top, i, expanded, hop, p);
      if link.target !in expanded {
        var propagated := Propagated(node.1, link, hop, p);
        if propagated >= p.threshold {
          ghost var a := Arrival(source, link, propagated);
          energies', traces', merged' :=
            Absorb(energies', traces', merged', link.target, propagated, Extended(trace, node.0, link, hop, propagated),
                   hop, p, so, a);
          so := so + [a];
        }
      }
    }
    assert top[..|top|] == top;
  }

  lemma AlongNext(before: seq<Arrival>, source: Activated, top: seq<Link>, i: nat, reached: set<Id>, hop: nat,
                  p: Params)
    requires i < |top|
    ensures before + Along(source, top[..i + 1], reached, hop, p) ==
            before + Along(source, top[..i], reached, hop, p) +
            if Survives(source, top[i], reached, hop, p)
            then [Arrival(source, top[i], Propagated(source.energy, top[i], hop, p))] else []
  {
    assert top[..i + 1][..i] == top[..i];
  }

  method SpreadRound(frontier: Frontier, traces: map<Id, seq<Hop>>, expanded: set<Id>, links: map<Id, seq<Link>>,
                     hop: nat, p: Params, ghost level: seq<Activated>)
    returns (energies: map<Id, real>, roundTraces: map<Id, seq<Hop>>, merged: nat)
    requires OnRecord(frontier, traces, level)
    ensures Tallied(energies, roundTraces, Arrivals(level, links, expanded, hop, p), hop, p)
    ensures merged == Merges(Arrivals(level, links, expanded, hop, p))
  {
    energies, roundTraces, merged := map[], map[], 0;
    for i := 0 to |frontier|
      invariant Tallied(energies, roundTraces, Arrivals(level[..i], links, expanded, hop, p), hop, p)
      invariant merged == Merges(Arrivals(level[..i], links, expanded, hop, p))
    {
      var node := frontier[i];
      var top := TopLinks(links, node.0, p);
      var trace := if node.0 in traces then traces[node.0] else [];
      assert level[i] == Activated(node.0, node.1, trace);
      assert level[..i + 1][..i] == level[..i];
      energies, roundTraces, merged :=
        FollowNode(node, trace, top, expanded, hop, p, energies, roundTraces, merged,
                   Arrivals(level[..i], links, expanded, hop, p));
    }
    assert level[..|level|] == level;
  }

  // ----- committing a round -----

  predicate PairOrder(a: (Id, real), b: (Id, real)) {
    a.1 > b.1 || (a.1 == b.1 && a.0 < b.0)
  }

  ghost function Nodes(items: seq<(Id, real)>, traces: map<Id, seq<Hop>>): seq<Activated>
    requires forall i :: 0 <= i < |items| ==> items[i].0 in traces
  {
    seq(|items|, i requires 0 <= i < |items| => Activated(items[i].0, items[i].1, traces[items[i].0]))
  }

  /** Any listing of the round's energies, sorted, is the next level. */
  lemma SortedItemsAreLevel(listing: seq<(Id, real)>, energies: map<Id, real>, traces: map<Id, seq<Hop>>,
                            arrivals: seq<Arrival>, hop: nat, p: Params)
    requires IsListing(listing, energies) && Tallied(energies, traces, arrivals, hop, p)
    ensures var items := Sort(listing, PairOrder);
            (forall i :: 0 <= i < |items| ==> items[i].0 in traces) &&
              Nodes(items, traces) == NextLevel(arrivals, hop, p)
  {
    var items := Sort(listing, PairOrder);
    SortPermutes(listing, PairOrder);
    ListingPermutes(listing, items, energies);
    SortOrdered(listing, PairOrder);
    NodesMembers(items, energies, traces, arrivals, hop, p);
    NodesOrdered(items, traces);
    OrderedNodesAreLevel(Nodes(items, traces), arrivals, hop, p);
  }

  lemma NodesOrdered(items: seq<(Id, real)>, traces: map<Id, seq<Hop>>)
    requires (forall i :: 0 <= i < |items| ==> items[i].0 in traces) && Ordered(items, PairOrder)
    ensures Ordered(Nodes(items, traces), EnergyThenId)
  {
    var nodes := Nodes(items, traces);
    forall i, j | 0 <= i < j < |nodes| ensures !EnergyThenId(nodes[j], nodes[i]) {
      assert !PairOrder(items[j], items[i]);
    }
  }

  lemma OrderedNodesAreLevel(nodes: seq<Activated>, arrivals: seq<Arrival>, hop: nat, p: Params)
    requires forall a :: a in nodes <==> Some(a) == Settle(arrivals, a.id, hop, p)
    requires OncePerId(nodes) && TieFree(nodes, EnergyThenId) && Ordered(nodes, EnergyThenId)
    ensures nodes == NextLevel(arrivals, hop, p)
  {
    var next := NextLevel(arrivals, hop, p);
    NextLevelMembers(arrivals, hop, p);
    NextLevelOrdered(arrivals, hop, p);
    DistinctMultiset(nodes, next);
    OrderedUnique(nodes, next, EnergyThenId);
  }

  lemma NodesMembers(items: seq<(Id, real)>, energies: map<Id, real>, traces: map<Id, seq<Hop>>, arrivals: seq<Arrival>,
                     hop: nat, p: Params)
    requires IsListing(items, energies) && Tallied(energies, traces, arrivals, hop, p)
    ensures var nodes := Nodes(items, traces);
            (forall a :: a in nodes <==> Some(a) == Settle(arrivals, a.id, hop, p)) && OncePerId(nodes) &&
              TieFree(nodes, EnergyThenId)
  {
    var nodes := Nodes(items, traces);
    forall i | 0 <= i < |nodes| ensures Some(nodes[i]) == Settle(arrivals, nodes[i].id, hop, p) {
      assert items[i].0 in energies;
    }
    forall a ensures a in nodes <==> Some(a) == Settle(arrivals, a.id, hop, p) {
      if Some(a) == Settle(arrivals, a.id, hop, p) {
        assert Hits(arrivals, a.id);
        var i :| 0 <= i < |items| && items[i] == (a.id, energies[a.id]);
        assert nodes[i] == a;
      }
    }
  }

  lemma NextLevelOrdered(arrivals: seq<Arrival>, hop: nat, p: Params)
    ensures Ordered(NextLevel(arrivals, hop, p), EnergyThenId)
  {
    TargetsMembers(arrivals);
    SortOrdered(Settled(arrivals, Targets(arrivals), hop, p), EnergyThenId);
  }

  /** Takes the sorted items as the next frontier. */
  method Commit(items: seq<(Id, real)>, roundTraces: map<Id, seq<Hop>>, traces: map<Id, seq<Hop>>, expanded: set<Id>,
                results: seq<Activated>, ghost next: seq<Activated>)
    returns (frontier: Frontier, traces': map<Id, seq<Hop>>, expanded': set<Id>, results': seq<Activated>)
    requires (forall i :: 0 <= i < |items| ==> items[i].0 in roundTraces) && Nodes(items, roundTraces) == next
    requires OncePerId(next) && Ids(next) !! expanded
    ensures OnRecord(frontier, traces', next) && expanded' == expanded + Ids(next) && results' == results + next
  {
    frontier, traces', expanded', results' := [], traces, expanded, results;
    var left := roundTraces;
    for i := 0 to |items|
      invariant OnRecord(frontier, traces', next[..i]) && expanded' == expanded + Ids(next[..i]) &&
                results' == results + next[..i]
      invariant forall j :: i <= j < |items| ==> items[j].0 in left && left[items[j].0] == roundTraces[items[j].0]
    {
      var (target, energy) := items[i];
      assert next[i] == Activated(target, energy, roundTraces[target]);
      assert next[..i + 1] == next[..i] + [next[i]];
      FreshNode(next, i, expanded);
      assert target !in expanded';
      if target !in expanded' {
        var trace := if target in left then left[target] else [];
        PushOnRecord(frontier, traces', next[..i], next[i]);
        StillLeft(items, next, roundTraces, i);
        left := left - {target};
        expanded' := expanded' + {target};
        traces' := traces'[target := trace];
        results' := results' + [Activated(target, energy, trace)];
        frontier := frontier + [(target, energy)];
      }
    }
    assert next[..|next|] == next;
  }

  lemma FreshNode(next: seq<Activated>, i: nat, expanded: set<Id>)
    requires i < |next| && OncePerId(next) && Ids(next) !! expanded
    ensures next[i].id !in Ids(next[..i]) && next[i].id !in expanded
  {
    assert next[i].id in Ids(next);
  }

  lemma StillLeft(items: seq<(Id, real)>, next: seq<Activated>, roundTraces: map<Id, seq<Hop>>, i: nat)
    requires (forall j :: 0 <= j < |items| ==> items[j].0 in roundTraces) && Nodes(items, roundTraces) == next &&
             OncePerId(next) && i < |items|
    ensures forall j :: i < j < |items| ==> items[j].0 != items[i].0
  {
    forall j | i < j < |items| ensures items[j].0 != items[i].0 {
      assert next[i].id == items[i].0 && next[j].id == items[j].0;
    }
  }

  /** One hop from frontier to frontier. */
  method HopRound(frontier: Frontier, traces: map<Id, seq<Hop>>, expanded: set<Id>, results: seq<Activated>,
                  merged: nat, links: map<Id, seq<Link>>, hop: nat, p: Params, ghost w: Wave)
    returns (frontier': Frontier, traces': map<Id, seq<Hop>>, expanded': set<Id>, results': seq<Activated>,
             merged': nat)
    requires Mirrors(frontier, traces, expanded, results, w) && merged == w.merges
    ensures Mirrors(frontier', traces', expanded', results', Advance(w, links, hop, p)) &&
            merged' == Advance(w, links, hop, p).merges
  {
    ghost var arrivals := Arrivals(w.level, links, w.reached, hop, p);
    ghost var next := NextLevel(arrivals, hop, p);
    var energies, roundTraces, merges := SpreadRound(frontier, traces, expanded, links, hop, p, w.level);
    var listing := Enumerate(energies);
    SortedItemsAreLevel(listing, energies, roundTraces, arrivals, hop, p);
    NextLevelMembers(arrivals, hop, p);
    NewlyReached(w, links, hop, p);
    frontier', traces', expanded', results' :=
      Commit(Sort(listing, PairOrder), roundTraces, traces, expanded, results, next);
    merged' := merged + merges;
  }

  lemma NewlyReached(w: Wave, links: map<Id, seq<Link>>, hop: nat, p: Params)
    ensures Ids(NextLevel(Arrivals(w.level, links, w.reached, hop, p), hop, p)) !! w.reached
  {
    var arrivals := Arrivals(w.level, links, w.reached, hop, p);
    NextLevelMembers(arrivals, hop, p);
    forall t | t in Ids(NextLevel(arrivals, hop, p)) ensures t !in w.reached {
      HitsExactly(w, links, hop, p, t);
    }
  }

  function HopLimit(hopOverride: Option<nat>, p: Params): nat {
    if hopOverride.Some? then hopOverride.value else p.maxHops
  }

  /**
   The result is a function of the inputs: the run of waves from the seeds, ranked by energy,
   with the merges it made. Hash-map listings are arbitrary at every step and leave no trace.
   */
  method SpreadMultiHop(fused: map<Id, (real, Channel)>, links: map<Id, seq<Link>>, p: Params,
                        importance: map<Id, real>, hopOverride: Option<nat>)
    returns (ranked: seq<Activated>, merged: nat)
    ensures var wave := Waves(SeedsOf(fused, importance, p), links, p);
            var h := match hopOverride case Some(n) => n case None => p.maxHops;
            ranked == Ranking(wave(h)) && merged == wave(h).merges
    ensures forall i, j :: 0 <= i < j < |ranked| ==> ranked[i].energy >= ranked[j].energy
    ensures forall i, j :: 0 <= i < j < |ranked| && ranked[i].energy == ranked[j].energy ==>
              ReachedBefore(ranked[i], ranked[j], fused)
  {
    var items := Enumerate(fused);
    var top := MaxScore(items);
    SortedListing(items, fused);
    SeedsOrderFree(items, SomeListing(fused), fused);
    var frontier, traces, expanded, results := SeedFrontier(Sort(items, ScoreThenId), top, importance, p);
    ghost var seeds := SeedsOf(fused, importance, p);
    WavesSpread(seeds, links, p);
    var results', merged' :=
      RunHops(frontier, traces, expanded, results, links, p, HopLimit(hopOverride, p), Waves(seeds, links, p), seeds);
    ranked, merged := Sort(results', MoreEnergy), merged';
    forall i, j | 0 <= i < j < |ranked|
      ensures ranked[i].energy > ranked[j].energy
              || (ranked[i].energy == ranked[j].energy && ReachedBefore(ranked[i], ranked[j], fused))
    {
      ReturnedInOrder(fused, links, importance, HopLimit(hopOverride, p), p, i, j);
    }
  }

  /**
   `a` was reached before `b`: at an earlier hop, which the length of the trace tells; or at the same hop, with the
   smaller id; or both are seeds, and `a` is the better one.
   */
  ghost predicate ReachedBefore(a: Activated, b: Activated, fused: map<Id, (real, Channel)>) {
    || |a.trace| < |b.trace|
    || (|a.trace| == |b.trace| > 1 && a.id < b.id)
    || (|a.trace| == |b.trace| == 1 && BetterSeed(a.id, b.id, fused))
  }

  lemma TopScoreExists(fused: map<Id, (real, Channel)>) returns (m: real)
    ensures IsTopScore(m, fused)
  {
    var items := SomeListing(fused);
    m := TopScore(items);
    TopScoreIsTop(items);
    forall id | id in fused ensures fused[id].0 <= m {
      assert (id, fused[id]) in items;
    }
    if m > 0.0 {
      var x :| x in items && x.1.0 == m;
      ListingMember(items, fused, x);
    }
  }

  /** Of two returned nodes the first has more energy, or as much and was reached before. */
  lemma ReturnedInOrder(fused: map<Id, (real, Channel)>, links: map<Id, seq<Link>>, importance: map<Id, real>, h: nat,
                        p: Params, i: nat, j: nat)
    requires i < j < |Ranking(Waves(SeedsOf(fused, importance, p), links, p)(h))|
    ensures var ranked := Ranking(Waves(SeedsOf(fused, importance, p), links, p)(h));
            || ranked[i].energy > ranked[j].energy
            || (ranked[i].energy == ranked[j].energy && ReachedBefore(ranked[i], ranked[j], fused))
  {
    var seeds := SeedsOf(fused, importance, p);
    var m := TopScoreExists(fused);
    SeedsOfWellFormed(fused, importance, p);
    SeedsExactly(fused, importance, p, m);
    WavesSpread(seeds, links, p);
    RankingOrder(Waves(seeds, links, p), seeds, links, h, p, i, j);
  }

  method RunHops(frontier: Frontier, traces: map<Id, seq<Hop>>, expanded: set<Id>, results: seq<Activated>,
                 links: map<Id, seq<Link>>, p: Params, limit: nat, ghost wave: nat -> Wave, ghost seeds: seq<Activated>)
    returns (results': seq<Activated>, merged: nat)
    requires Spreads(wave, seeds, links, p) && Mirrors(frontier, traces, expanded, results, wave(0))
    ensures results' == wave(limit).all && merged == wave(limit).merges
  {
    var frontier', traces', expanded' := frontier, traces, expanded;
    results', merged := results, 0;
    for hop := 1 to limit + 1
      invariant Mirrors(frontier', traces', expanded', results', wave(hop - 1)) && merged == wave(hop - 1).merges
    {
      if frontier' == [] {
        StopsWhenEmpty(wave, seeds, links, hop - 1, limit, p);
        break;
      }
      assert StepAt(wave, hop - 1, links, p);
      frontier', traces', expanded', results', merged :=
        HopRound(frontier', traces', expanded', results', merged, links, hop, p, wave(hop - 1));
    }
  }

  method MaxScore(items: seq<SeedItem>) returns (top: real)
    ensures top == TopScore(items)
  {
    top := 0.0;
    for i := 0 to |items|
      invariant top == TopScore(items[..i])
    {
      assert items[..i + 1][..i] == items[..i];
      top := Max(top, items[i].1.0);
    }
    assert items[..|items|] == items;
  }

  /** `a` was reached at one level up to `h`, along a path of the graph that does not repeat a node. */
  ghost predicate ReachedByPath(a: Activated, wave: nat -> Wave, links: map<Id, seq<Link>>, h: nat, p: Params) {
    && NoRepeat(a.trace) && FollowsLinks(a.trace, links)
    && exists i: nat :: i <= h && a in wave(i).level && IsPath(a, wave, links, i, p)
  }

  /** Everything returned was reached at one level, along a repetition-free path of real top links from a seed. */
  lemma ReturnedNodesHavePaths(fused: map<Id, (real, Channel)>, links: map<Id, seq<Link>>, importance: map<Id, real>,
                               h: nat, p: Params)
    ensures var wave := Waves(SeedsOf(fused, importance, p), links, p);
            OncePerId(Ranking(wave(h))) && forall a :: a in Ranking(wave(h)) ==>
              ReachedByPath(a, wave, links, h, p) && (p.mergeWeight >= 0.0 ==> a.energy >= p.threshold)
  {
    var seeds := SeedsOf(fused, importance, p);
    var wave := Waves(seeds, links, p);
    SeedsOfWellFormed(fused, importance, p);
    WavesSpread(seeds, links, p);
    RunExtends(wave, seeds, links, p);
    ResultsOnce(wave, h);
    forall a | a in Ranking(wave(h))
      ensures ReachedByPath(a, wave, links, h, p) && (p.mergeWeight >= 0.0 ==> a.energy >= p.threshold)
    {
      var i: nat :| i <= h && a in wave(i).level;
      TracesArePaths(wave, seeds, links, i, p, a);
      TracesDoNotRepeat(wave, links, i, p, a);
      PathFollowsLinks(a, wave, links, i, p);
      if p.mergeWeight >= 0.0 {
        EnergiesReachThreshold(wave, seeds, links, h, p, a);
      }
    }
  }
}
