/** Spreading activation, level by level: the specification and what holds of it (`spreading.rs`). */
module Spreading {
  import opened MemoryModel
  import opened Sorting
  import opened Sums
  import opened Seeds
  import opened Energy

  datatype Hop = Hop(from: Option<Id>, to: Id, via: Option<LinkType>, channel: Option<Channel>, hop: nat,
                     energyIn: real, energyOut: real)

  /** A node that spreading returns. */
  datatype Activated = Activated(id: Id, energy: real, trace: seq<Hop>)

  /** Hops are stored in eight bits. */
  function HopByte(hop: nat): nat {
    hop % 256
  }

  function SeedTrace(id: Id, energy: real, channel: Channel): seq<Hop> {
    [Hop(None, id, None, Some(channel), 0, energy, energy)]
  }

  function Extended(trace: seq<Hop>, from: Id, l: Link, hop: nat, energy: real): seq<Hop> {
    trace + [Hop(Some(from), l.target, Some(l.kind), None, HopByte(hop), energy, energy)]
  }

  // ----- one round -----

  /** A surviving traversal: `source` passes `energy` along `link`. */
  datatype Arrival = Arrival(source: Activated, link: Link, energy: real)

  function TraceOf(a: Arrival, hop: nat): seq<Hop> {
    Extended(a.source.trace, a.source.id, a.link, hop, a.energy)
  }

  predicate Survives(source: Activated, l: Link, reached: set<Id>, hop: nat, p: Params) {
    l.target !in reached && Propagated(source.energy, l, hop, p) >= p.threshold
  }

  /** The surviving traversals of these links of one node, in order. */
  function Along(source: Activated, links: seq<Link>, reached: set<Id>, hop: nat, p: Params): seq<Arrival> {
    if links == [] then []
    else
      var n := |links| - 1;
      Along(source, links[..n], reached, hop, p) +
      if Survives(source, links[n], reached, hop, p)
      then [Arrival(source, links[n], Propagated(source.energy, links[n], hop, p))] else []
  }

  /** All surviving traversals of a round, in the order of the level. */
  function Arrivals(level: seq<Activated>, links: map<Id, seq<Link>>, reached: set<Id>, hop: nat,
                    p: Params): seq<Arrival> {
    if level == [] then []
    else
      var n := |level| - 1;
      Arrivals(level[..n], links, reached, hop, p) + Along(level[n], TopLinks(links, level[n].id, p), reached, hop, p)
  }

  ghost predicate Hits(arrivals: seq<Arrival>, t: Id) {
    exists i :: 0 <= i < |arrivals| && arrivals[i].link.target == t
  }

  /** What the arrivals at one node come to: energies merged in order, and the trace that is kept. */
  function Settle(arrivals: seq<Arrival>, t: Id, hop: nat, p: Params): (r: Option<Activated>)
    ensures r.Some? <==> Hits(arrivals, t)
    ensures r.Some? ==> r.value.id == t
  {
    if arrivals == [] then None
    else
      var n := |arrivals| - 1;
      var before := Settle(arrivals[..n], t, hop, p);
      assert forall i :: 0 <= i < n ==> arrivals[..n][i] == arrivals[i];
      if arrivals[n].link.target != t then before
      else Some(Absorbed(before, arrivals[n], hop, p))
  }

  function Absorbed(before: Option<Activated>, a: Arrival, hop: nat, p: Params): Activated {
    if before.None? then Activated(a.link.target, a.energy, TraceOf(a, hop))
    else
      var merged := Merge(before.value.energy, a.energy, p);
      Activated(a.link.target, merged, if merged == a.energy then TraceOf(a, hop) else before.value.trace)
  }

  /** The nodes that the arrivals reach, in order of first arrival. */
  function Targets(arrivals: seq<Arrival>): seq<Id> {
    if arrivals == [] then []
    else
      var n := |arrivals| - 1;
      var before := Targets(arrivals[..n]);
      if arrivals[n].link.target in before then before else before + [arrivals[n].link.target]
  }

  /** How many arrivals meet an earlier one at their node. */
  function Merges(arrivals: seq<Arrival>): nat {
    if arrivals == [] then 0
    else
      var n := |arrivals| - 1;
      Merges(arrivals[..n]) + if arrivals[n].link.target in Targets(arrivals[..n]) then 1 else 0
  }

  predicate EnergyThenId(a: Activated, b: Activated) {
    a.energy > b.energy || (a.energy == b.energy && a.id < b.id)
  }

  lemma {:induction false} TargetsMembers(arrivals: seq<Arrival>)
    ensures forall t :: t in Targets(arrivals) <==> Hits(arrivals, t)
    ensures Distinct(Targets(arrivals))
  {
    if arrivals != [] {
      var n := |arrivals| - 1;
      TargetsMembers(arrivals[..n]);
      assert forall i :: 0 <= i < n ==> arrivals[..n][i] == arrivals[i];
    }
  }

  function Settled(arrivals: seq<Arrival>, ts: seq<Id>, hop: nat, p: Params): (r: seq<Activated>)
    requires forall t :: t in ts ==> Hits(arrivals, t)
  {
    seq(|ts|, i requires 0 <= i < |ts| => Settle(arrivals, ts[i], hop, p).value)
  }

  /** The newly reached nodes, strongest first. */
  function NextLevel(arrivals: seq<Arrival>, hop: nat, p: Params): seq<Activated> {
    TargetsMembers(arrivals);
    Sort(Settled(arrivals, Targets(arrivals), hop, p), EnergyThenId)
  }

  // ----- whole runs -----

  /** The state between rounds: the last level, and everything reached so far. */
  datatype Wave = Wave(level: seq<Activated>, reached: set<Id>, all: seq<Activated>, merges: nat)

  function Ids(level: seq<Activated>): set<Id> {
    set a | a in level :: a.id
  }

  function Advance(w: Wave, links: map<Id, seq<Link>>, hop: nat, p: Params): Wave {
    var arrivals := Arrivals(w.level, links, w.reached, hop, p);
    var next := NextLevel(arrivals, hop, p);
    Wave(next, w.reached + Ids(next), w.all + next, w.merges + Merges(arrivals))
  }

  function Start(seeds: seq<Activated>): Wave {
    Wave(seeds, Ids(seeds), seeds, 0)
  }

  function After(seeds: seq<Activated>, links: map<Id, seq<Link>>, h: nat, p: Params): Wave {
    if h == 0 then Start(seeds) else Advance(After(seeds, links, h - 1, p), links, h, p)
  }

  predicate MoreEnergy(a: Activated, b: Activated) {
    a.energy > b.energy
  }

  /** What is returned after a wave: everything reached, most energy first. */
  function Ranking(w: Wave): seq<Activated> {
    Sort(w.all, MoreEnergy)
  }

  // ----- seeds -----

  type SeedItem = (Id, (real, Channel))

  predicate ScoreThenId(a: SeedItem, b: SeedItem) {
    a.1.0 > b.1.0 || (a.1.0 == b.1.0 && a.0 < b.0)
  }

  function TopScore(items: seq<SeedItem>): real {
    if items == [] then 0.0 else Max(TopScore(items[..|items| - 1]), items[|items| - 1].1.0)
  }

  function SeedEnergy(score: real, top: real, importance: real, p: Params): real {
    Min((if top > 0.0 then score / top else 0.0) * p.queryMatch * (1.0 + importance * p.importanceWeight), p.cap)
  }

  function ImportanceOf(importance: map<Id, real>, id: Id): real {
    if id in importance then importance[id] else 0.0
  }

  function SeedNode(item: SeedItem, top: real, importance: map<Id, real>, p: Params): Activated {
    var energy := SeedEnergy(item.1.0, top, ImportanceOf(importance, item.0), p);
    Activated(item.0, energy, SeedTrace(item.0, energy, item.1.1))
  }

  /** The seeds with enough energy, in the order of the items. */
  function SeedLevel(items: seq<SeedItem>, top: real, importance: map<Id, real>, p: Params): seq<Activated> {
    if items == [] then []
    else
      var n := |items| - 1;
      var seed := SeedNode(items[n], top, importance, p);
      SeedLevel(items[..n], top, importance, p) + if seed.energy < p.threshold then [] else [seed]
  }

  ghost predicate DistinctIds(items: seq<SeedItem>) {
    forall i, j :: 0 <= i < j < |items| ==> items[i].0 != items[j].0
  }

  lemma {:induction false} SeedLevelMembers(items: seq<SeedItem>, top: real, importance: map<Id, real>, p: Params)
    requires DistinctIds(items)
    ensures forall a :: a in SeedLevel(items, top, importance, p) ==>
              a.energy >= p.threshold && exists i :: 0 <= i < |items| && a == SeedNode(items[i], top, importance, p)
    ensures OncePerId(SeedLevel(items, top, importance, p))
  {
    if items != [] {
      var n := |items| - 1;
      SeedLevelMembers(items[..n], top, importance, p);
      var before := SeedLevel(items[..n], top, importance, p);
      forall a | a in before ensures a.id != items[n].0 {
        var i :| 0 <= i < n && a == SeedNode(items[..n][i], top, importance, p);
      }
      assert forall i :: 0 <= i < n ==> items[..n][i] == items[i];
    }
  }

  ghost predicate OncePerId(s: seq<Activated>) {
    forall i, j :: 0 <= i < j < |s| ==> s[i].id != s[j].id
  }

  ghost predicate SeedsWellFormed(seeds: seq<Activated>, p: Params) {
    OncePerId(seeds) && forall a :: a in seeds ==>
      a.energy >= p.threshold && exists c :: a.trace == SeedTrace(a.id, a.energy, c)
  }

  // ----- what a round does -----

  lemma {:induction false} AlongMembers(source: Activated, links: seq<Link>, reached: set<Id>, hop: nat, p: Params)
    ensures forall a :: a in Along(source, links, reached, hop, p) <==>
              a.source == source && a.link in links && Survives(source, a.link, reached, hop, p)
              && a.energy == Propagated(source.energy, a.link, hop, p)
  {
    if links != [] {
      AlongMembers(source, links[..|links| - 1], reached, hop, p);
      assert links == links[..|links| - 1] + [links[|links| - 1]];
    }
  }

  /** The arrivals are exactly the surviving traversals of top links of the level. */
  ghost predicate Traverses(a: Arrival, level: seq<Activated>, links: map<Id, seq<Link>>, reached: set<Id>, hop: nat,
                            p: Params) {
    && a.source in level && a.link in TopLinks(links, a.source.id, p)
    && Survives(a.source, a.link, reached, hop, p) && a.energy == Propagated(a.source.energy, a.link, hop, p)
  }

  lemma {:induction false} ArrivalsMembers(level: seq<Activated>, links: map<Id, seq<Link>>, reached: set<Id>, hop: nat,
                                           p: Params)
    ensures forall a :: a in Arrivals(level, links, reached, hop, p) <==> Traverses(a, level, links, reached, hop, p)
  {
    if level != [] {
      var n := |level| - 1;
      ArrivalsMembers(level[..n], links, reached, hop, p);
      AlongMembers(level[n], TopLinks(links, level[n].id, p), reached, hop, p);
      assert level == level[..n] + [level[n]];
    }
  }

  lemma NextLevelMembers(arrivals: seq<Arrival>, hop: nat, p: Params)
    ensures forall a :: a in NextLevel(arrivals, hop, p) <==> Some(a) == Settle(arrivals, a.id, hop, p)
    ensures OncePerId(NextLevel(arrivals, hop, p))
    ensures |NextLevel(arrivals, hop, p)| == |Targets(arrivals)|
  {
    TargetsMembers(arrivals);
    var ts := Targets(arrivals);
    var nodes := Settled(arrivals, ts, hop, p);
    SettledMembers(arrivals, ts, hop, p);
    SortPermutes(nodes, EnergyThenId);
    OncePerIdPermutes(nodes, NextLevel(arrivals, hop, p));
  }

  lemma SettledMembers(arrivals: seq<Arrival>, ts: seq<Id>, hop: nat, p: Params)
    requires Distinct(ts) && forall t :: t in ts <==> Hits(arrivals, t)
    ensures forall a :: a in Settled(arrivals, ts, hop, p) <==> Some(a) == Settle(arrivals, a.id, hop, p)
    ensures OncePerId(Settled(arrivals, ts, hop, p))
  {
    var nodes := Settled(arrivals, ts, hop, p);
    forall i | 0 <= i < |ts| ensures Some(nodes[i]) == Settle(arrivals, ts[i], hop, p) && nodes[i].id == ts[i] {
      assert ts[i] in ts;
    }
    forall a ensures a in nodes <==> Some(a) == Settle(arrivals, a.id, hop, p) {
      if Some(a) == Settle(arrivals, a.id, hop, p) {
        var i :| 0 <= i < |ts| && ts[i] == a.id;
        assert nodes[i] == a;
      }
    }
  }

  lemma OncePerIdPermutes(a: seq<Activated>, b: seq<Activated>)
    requires OncePerId(a) && multiset(a) == multiset(b)
    ensures OncePerId(b)
  {
    SameLength(a, b);
    forall i, j | 0 <= i < j < |b| ensures b[i].id != b[j].id {
      if b[i].id == b[j].id {
        assert b[i] in multiset(a) && b[j] in multiset(a);
        TwiceCounted(b, i, j);
        DistinctCount(a, b[i]);
      }
    }
  }

  /** Every surviving traversal either reaches a new node or is merged. */
  lemma {:induction false} TraversalsConserved(arrivals: seq<Arrival>, hop: nat, p: Params)
    ensures Merges(arrivals) + |NextLevel(arrivals, hop, p)| == |arrivals|
  {
    NextLevelMembers(arrivals, hop, p);
    MergesAndTargets(arrivals);
  }

  lemma {:induction false} MergesAndTargets(arrivals: seq<Arrival>)
    ensures Merges(arrivals) + |Targets(arrivals)| == |arrivals|
  {
    if arrivals != [] {
      MergesAndTargets(arrivals[..|arrivals| - 1]);
    }
  }
}
