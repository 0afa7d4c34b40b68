/**
 Runs of spreading activation on which a comment or a recorded field fails: each shows that the condition of the exact
 theorem beside it is needed.
 */
module SpreadingWitnesses {
  import opened MemoryModel
  import opened Sorting
  import opened Seeds
  import opened Energy
  import opened Spreading
  import opened SpreadingRuns
  import opened SpreadingEngine

  /** The default spreading parameters (`hippmem-core/src/config.rs`). */
  const DEFAULTS := Params(0.40, 0.60, 1.0, 0.55, 0.05, 6, 0.30, 2)

  function Edge(target: Id, strength: real): Link {
    Link(target, EntityOverlap, strength, 1.0, None, 0, None, 0, Confirmed)
  }

  // ----- the stronger path comes second -----

  /** Two seeds point at memory 3: the better one weakly, the other strongly. */
  const FUSED: map<Id, (real, Channel)> := map[1 := (2.0, Bm25), 2 := (1.0, Bm25)]
  const GRAPH: map<Id, seq<Link>> := map[1 := [Edge(3, 0.25)], 2 := [Edge(3, 1.0)]]
  const BETTER := Activated(1, 0.4, SeedTrace(1, 0.4, Bm25))
  const OTHER := Activated(2, 0.2, SeedTrace(2, 0.2, Bm25))
  const WEAKER := Arrival(BETTER, Edge(3, 0.25), 0.055)
  const STRONGER := Arrival(OTHER, Edge(3, 1.0), 0.11)

  lemma TwoSeeds()
    ensures SeedsOf(FUSED, map[], DEFAULTS) == [BETTER, OTHER]
  {
    var items: seq<SeedItem> := [(1, (2.0, Bm25)), (2, (1.0, Bm25))];
    assert items[0] in items && items[1] in items;
    SeedsOrderFree(SomeListing(FUSED), items, FUSED);
    SortPair(items[0], items[1], ScoreThenId);
    LevelOfTwo(items[0], items[1], 2.0, DEFAULTS);
  }

  lemma LevelOfTwo(x: SeedItem, y: SeedItem, top: real, p: Params)
    requires SeedNode(x, top, map[], p).energy >= p.threshold && SeedNode(y, top, map[], p).energy >= p.threshold
    ensures SeedLevel([x, y], top, map[], p) == [SeedNode(x, top, map[], p), SeedNode(y, top, map[], p)]
    ensures TopScore([x, y]) == Max(Max(0.0, x.1.0), y.1.0)
  {
    assert [x, y][..1] == [x] && [x][..0] == [];
    assert SeedLevel([x], top, map[], p) == [SeedNode(x, top, map[], p)];
    assert TopScore([x]) == Max(0.0, x.1.0);
  }

  lemma SortPair<T>(x: T, y: T, before: (T, T) -> bool)
    requires !before(y, x)
    ensures Sort([x, y], before) == [x, y]
  {
    assert [x, y][1..] == [y] && [y][1..] == [];
    assert Sort([y], before) == [y];
  }

  lemma SortOne<T>(x: T, before: (T, T) -> bool)
    ensures Sort([x], before) == [x]
  {
    assert [x][1..] == [];
  }

  /** What a node with one link contributes to a round. */
  lemma OneLink(source: Activated, links: map<Id, seq<Link>>, l: Link, reached: set<Id>, hop: nat, p: Params)
    requires source.id in links && links[source.id] == [l] && p.fanOut > 0 && Survives(source, l, reached, hop, p)
    ensures Along(source, TopLinks(links, source.id, p), reached, hop, p) ==
            [Arrival(source, l, Propagated(source.energy, l, hop, p))]
  {
    SortOne(l, Heavier);
    assert [l][..0] == [];
  }

  lemma TwoArrivals()
    ensures Arrivals([BETTER, OTHER], GRAPH, {1, 2}, 1, DEFAULTS) == [WEAKER, STRONGER]
  {
    assert Power(0.55, 1) == 0.55;
    OneLink(BETTER, GRAPH, Edge(3, 0.25), {1, 2}, 1, DEFAULTS);
    OneLink(OTHER, GRAPH, Edge(3, 1.0), {1, 2}, 1, DEFAULTS);
    LevelArrivals(BETTER, OTHER, GRAPH, {1, 2}, 1, DEFAULTS);
  }

  lemma LevelArrivals(a: Activated, b: Activated, links: map<Id, seq<Link>>, reached: set<Id>, hop: nat, p: Params)
    ensures Arrivals([a], links, reached, hop, p) == Along(a, TopLinks(links, a.id, p), reached, hop, p)
    ensures Arrivals([a, b], links, reached, hop, p) ==
            Along(a, TopLinks(links, a.id, p), reached, hop, p) + Along(b, TopLinks(links, b.id, p), reached, hop, p)
  {
    assert [a, b][..1] == [a] && [a][..0] == [];
    assert Arrivals([], links, reached, hop, p) == [];
  }

  /** Whenever the second of two arrivals is the stronger one, the first one's trace is returned all the same. */
  lemma FirstOfTwo(wave: nat -> Wave, seeds: seq<Activated>, links: map<Id, seq<Link>>, p: Params, c: Arrival,
                   d: Arrival, h: nat) returns (a: Activated)
    requires Spreads(wave, seeds, links, p) && OncePerId(seeds) && RoundArrivals(wave, links, 1, p) == [c, d] && h > 0
    requires p.mergeWeight > 0.0 && 0.0 < p.threshold <= c.energy < d.energy && c.link.target == d.link.target
    ensures a in Ranking(wave(h)) && a.id == c.link.target && a.trace == TraceOf(c, 1)
    ensures !KeepsStrongest(a, [c, d], 1)
  {
    var t := c.link.target;
    FirstTraceKept([c, d], t, 0, 1, p);
    a := Settle([c, d], t, 1, p).value;
    LevelOfArrivals(wave, seeds, links, 1, p);
    NextLevelMembers([c, d], 1, p);
    RunExtends(wave, seeds, links, p);
    ResultsOnce(wave, h);
    assert InSomeLevel(wave, h, a);
    StrongestTraceKeptExactly([c, d], t, 1, p);
    assert Leads([c, d], t, 0) && [c, d][1].energy > [c, d][0].energy;
  }

  lemma StrongerPathLostIn(wave: nat -> Wave) returns (a: Activated)
    requires Spreads(wave, [BETTER, OTHER], GRAPH, DEFAULTS)
    ensures a in Ranking(wave(2)) && a.id == 3 && a.trace == TraceOf(WEAKER, 1)
    ensures RoundArrivals(wave, GRAPH, 1, DEFAULTS) == [WEAKER, STRONGER] && !KeepsStrongest(a, [WEAKER, STRONGER], 1)
  {
    assert Ids([BETTER, OTHER]) == {1, 2};
    TwoArrivals();
    a := FirstOfTwo(wave, [BETTER, OTHER], GRAPH, DEFAULTS, WEAKER, STRONGER, 2);
  }

  /**
   With the default parameters memory 3 is returned with the trace from the better seed, although the other path
   brings twice the energy.
   */
  lemma StrongerPathLost() returns (a: Activated)
    ensures var wave := Waves(SeedsOf(FUSED, map[], DEFAULTS), GRAPH, DEFAULTS);
            && a in Ranking(wave(DEFAULTS.maxHops)) && a.id == 3 && a.trace == TraceOf(WEAKER, 1)
            && RoundArrivals(wave, GRAPH, 1, DEFAULTS) == [WEAKER, STRONGER]
            && !KeepsStrongest(a, [WEAKER, STRONGER], 1)
    ensures WEAKER.link.target == STRONGER.link.target == 3 && STRONGER.energy == 2.0 * WEAKER.energy
  {
    TwoSeeds();
    WavesSpread([BETTER, OTHER], GRAPH, DEFAULTS);
    a := StrongerPathLostIn(Waves([BETTER, OTHER], GRAPH, DEFAULTS));
  }

  // ----- a run past hop 255 -----

  /** Memories 0 to `n` in a row, and parameters under which energy crosses a link undiminished. */
  function Chain(n: nat): (r: map<Id, seq<Link>>)
    ensures forall i: Id :: i in r <==> i < n
    ensures forall i: Id :: i < n ==> r[i] == [Edge(i + 1, 1.0)]
  {
    if n == 0 then map[] else Chain(n - 1)[n - 1 := [Edge(n, 1.0)]]
  }

  const LOSSLESS := DEFAULTS.(decay := 1.0)
  const HEAD := Activated(0, 0.4, SeedTrace(0, 0.4, Bm25))

  lemma {:induction false} PowerOfOne(n: nat)
    ensures Power(1.0, n) == 1.0
  {
    if n > 0 {
      PowerOfOne(n - 1);
    }
  }

  lemma OneArrival(c: Arrival, hop: nat, p: Params)
    ensures NextLevel([c], hop, p) == [Activated(c.link.target, c.energy, TraceOf(c, hop))]
  {
    assert [c][..0] == [];
    assert Targets([c]) == [c.link.target];
    SortOne(Activated(c.link.target, c.energy, TraceOf(c, hop)), EnergyThenId);
    assert Settled([c], Targets([c]), hop, p) == [Activated(c.link.target, c.energy, TraceOf(c, hop))];
  }

  /** The wave stands at memory `h`, having reached nothing beyond it. */
  ghost predicate StandsAt(w: Wave, h: nat) {
    |w.level| == 1 && w.level[0].id == h && w.level[0].energy == 0.4 && forall x :: x in w.reached ==> x <= h
  }

  lemma ChainStep(links: map<Id, seq<Link>>, w: Wave, h: nat, w': Wave)
    requires h in links && links[h] == [Edge(h + 1, 1.0)]
    requires StandsAt(w, h) && w' == Advance(w, links, h + 1, LOSSLESS)
    ensures StandsAt(w', h + 1)
  {
    var a, l := w.level[0], Edge(h + 1, 1.0);
    Undiminished(l, h + 1);
    OneLink(a, links, l, w.reached, h + 1, LOSSLESS);
    LevelArrivals(a, a, links, w.reached, h + 1, LOSSLESS);
    assert w.level == [a];
    OneArrival(Arrival(a, l, 0.4), h + 1, LOSSLESS);
  }

  lemma Undiminished(l: Link, hop: nat)
    requires l == Edge(l.target, 1.0)
    ensures Propagated(0.4, l, hop, LOSSLESS) == 0.4
  {
    PowerOfOne(hop);
  }

  ghost predicate IsChain(links: map<Id, seq<Link>>, n: nat) {
    forall i: Id :: i < n ==> i in links && links[i] == [Edge(i + 1, 1.0)]
  }

  lemma {:induction false} ChainRuns(wave: nat -> Wave, links: map<Id, seq<Link>>, n: nat, h: nat)
    requires Spreads(wave, [HEAD], links, LOSSLESS) && IsChain(links, n) && h <= n
    ensures StandsAt(wave(h), h)
  {
    if h > 0 {
      ChainRuns(wave, links, n, h - 1);
      assert StepAt(wave, h - 1, links, LOSSLESS);
      ChainStep(links, wave(h - 1), h - 1, wave(h));
    }
  }

  lemma ChainWrapsIn(wave: nat -> Wave, links: map<Id, seq<Link>>, n: nat, h: nat, limit: nat)
    requires Spreads(wave, [HEAD], links, LOSSLESS) && IsChain(links, n) && h < 256 <= limit && 256 <= n
    ensures Ranking(wave(h)) != Filter(Ranking(wave(limit)), ReachedBy(h))
  {
    ChainRuns(wave, links, n, 256);
    FewerHopsByRecord(wave, [HEAD], links, h, limit, LOSSLESS);
  }

  /** A row of more than 256 memories: with 256 hops and more the recorded hop no longer picks out a shorter run. */
  lemma LongChainWraps(n: nat, h: nat, limit: nat)
    requires h < 256 <= limit && 256 <= n
    ensures var wave := Waves([HEAD], Chain(n), LOSSLESS);
            Ranking(wave(h)) != Filter(Ranking(wave(limit)), ReachedBy(h))
  {
    WavesSpread([HEAD], Chain(n), LOSSLESS);
    ChainWrapsIn(Waves([HEAD], Chain(n), LOSSLESS), Chain(n), n, h, limit);
  }
}
