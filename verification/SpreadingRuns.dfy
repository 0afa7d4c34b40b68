/** Properties of spreading over all its rounds. */
module SpreadingRuns {
  import opened MemoryModel
  import opened Sorting
  import opened Sums
  import opened Energy
  import opened Spreading

  // ----- runs -----

  ghost predicate StepAt(wave: nat -> Wave, h: nat, links: map<Id, seq<Link>>, p: Params) {
    wave(h + 1) == Advance(wave(h), links, h + 1, p)
  }

  /** `wave` is the run from these seeds, one wave per hop. */
  ghost predicate Spreads(wave: nat -> Wave, seeds: seq<Activated>, links: map<Id, seq<Link>>, p: Params) {
    wave(0) == Start(seeds) && forall h: nat :: StepAt(wave, h, links, p)
  }

  ghost function Waves(seeds: seq<Activated>, links: map<Id, seq<Link>>, p: Params): nat -> Wave {
    (h: nat) => After(seeds, links, h, p)
  }

  lemma WavesSpread(seeds: seq<Activated>, links: map<Id, seq<Link>>, p: Params)
    ensures Spreads(Waves(seeds, links, p), seeds, links, p)
  {
    forall h: nat ensures StepAt(Waves(seeds, links, p), h, links, p) {
      WavesStep(seeds, links, h, p);
    }
  }

  lemma WavesStep(seeds: seq<Activated>, links: map<Id, seq<Link>>, h: nat, p: Params)
    ensures StepAt(Waves(seeds, links, p), h, links, p)
  {
    var k := h + 1;
    assert After(seeds, links, k, p) == Advance(After(seeds, links, h, p), links, k, p);
  }

  /** The surviving traversals of hop `h`. */
  ghost function RoundArrivals(wave: nat -> Wave, links: map<Id, seq<Link>>, h: nat, p: Params): seq<Arrival>
    requires h > 0
  {
    Arrivals(wave(h - 1).level, links, wave(h - 1).reached, h, p)
  }

  /** What a step adds to a wave. */
  ghost predicate Extends(w: Wave, w': Wave) {
    && w'.all == w.all + w'.level
    && w'.reached == w.reached + Ids(w'.level)
    && Ids(w'.level) !! w.reached
    && OncePerId(w'.level)
  }

  ghost predicate Extending(wave: nat -> Wave) {
    && wave(0).all == wave(0).level && wave(0).reached == Ids(wave(0).level) && OncePerId(wave(0).level)
    && forall h: nat :: ExtendsAt(wave, h)
  }

  ghost predicate ExtendsAt(wave: nat -> Wave, h: nat) {
    Extends(wave(h), wave(h + 1))
  }

  lemma LevelOfArrivals(wave: nat -> Wave, seeds: seq<Activated>, links: map<Id, seq<Link>>, h: nat, p: Params)
    requires h > 0 && Spreads(wave, seeds, links, p)
    ensures wave(h).level == NextLevel(RoundArrivals(wave, links, h, p), h, p)
    ensures wave(h).merges == wave(h - 1).merges + Merges(RoundArrivals(wave, links, h, p))
    ensures wave(h).all == wave(h - 1).all + wave(h).level &&
            wave(h).reached == wave(h - 1).reached + Ids(wave(h).level)
  {
    assert StepAt(wave, h - 1, links, p);
  }

  // ----- each node once, at the first hop that reaches it -----

  /** A surviving top link of `w`'s level leads to `t`. */
  ghost predicate Reachable(w: Wave, links: map<Id, seq<Link>>, h: nat, p: Params, t: Id) {
    exists s, l ::
      s in w.level && l in TopLinks(links, s.id, p) && l.target == t && Propagated(s.energy, l, h, p) >= p.threshold
  }

  lemma HitsExactly(w: Wave, links: map<Id, seq<Link>>, h: nat, p: Params, t: Id)
    ensures Hits(Arrivals(w.level, links, w.reached, h, p), t) <==> t !in w.reached && Reachable(w, links, h, p, t)
  {
    var arrivals := Arrivals(w.level, links, w.reached, h, p);
    ArrivalsMembers(w.level, links, w.reached, h, p);
    if Hits(arrivals, t) {
      var i :| 0 <= i < |arrivals| && arrivals[i].link.target == t;
      assert arrivals[i] in arrivals;
    }
    if t !in w.reached && Reachable(w, links, h, p, t) {
      var s, l :| s in w.level && l in TopLinks(links, s.id, p) && l.target == t &&
        Propagated(s.energy, l, h, p) >= p.threshold;
      assert Traverses(Arrival(s, l, Propagated(s.energy, l, h, p)), w.level, links, w.reached, h, p);
    }
  }

  /**
   A node enters at hop `h` exactly when a surviving top link of the previous level leads to it and no earlier hop
   reached it.
   */
  lemma FirstReach(wave: nat -> Wave, seeds: seq<Activated>, links: map<Id, seq<Link>>, h: nat, p: Params, t: Id)
    requires h > 0 && Spreads(wave, seeds, links, p)
    ensures t in Ids(wave(h).level) <==> t !in wave(h - 1).reached && Reachable(wave(h - 1), links, h, p, t)
  {
    var w, arrivals, next := wave(h - 1), RoundArrivals(wave, links, h, p), wave(h).level;
    LevelOfArrivals(wave, seeds, links, h, p);
    HitsExactly(w, links, h, p, t);
    NextLevelMembers(arrivals, h, p);
    if Hits(arrivals, t) {
      assert Settle(arrivals, t, h, p).value in next;
    }
  }

  lemma RunExtends(wave: nat -> Wave, seeds: seq<Activated>, links: map<Id, seq<Link>>, p: Params)
    requires Spreads(wave, seeds, links, p) && OncePerId(seeds)
    ensures Extending(wave)
  {
    forall h: nat ensures ExtendsAt(wave, h) {
      var k := h + 1;
      LevelOfArrivals(wave, seeds, links, k, p);
      NextLevelMembers(RoundArrivals(wave, links, k, p), k, p);
      forall t | t in Ids(wave(k).level) ensures t !in wave(h).reached {
        FirstReach(wave, seeds, links, k, p, t);
      }
    }
  }

  lemma {:induction false} EachNodeOnce(wave: nat -> Wave, h: nat)
    requires Extending(wave)
    ensures OncePerId(wave(h).all) && wave(h).reached == Ids(wave(h).all)
  {
    if h > 0 {
      EachNodeOnce(wave, h - 1);
      assert ExtendsAt(wave, h - 1);
      AppendOnce(wave(h - 1).all, wave(h).level);
    }
  }

  lemma AppendOnce(all: seq<Activated>, next: seq<Activated>)
    requires OncePerId(all) && OncePerId(next) && Ids(all) !! Ids(next)
    ensures OncePerId(all + next) && Ids(all + next) == Ids(all) + Ids(next)
  {
    forall i, j | 0 <= i < |all| && 0 <= j < |next| ensures all[i].id != next[j].id {
      assert all[i].id in Ids(all) && next[j].id in Ids(next);
    }
  }

  lemma {:induction false} ReachedGrows(wave: nat -> Wave, i: nat, j: nat)
    requires Extending(wave) && i <= j
    ensures Ids(wave(i).level) <= wave(j).reached
    decreases j
  {
    if j > 0 {
      assert ExtendsAt(wave, j - 1);
      if i < j {
        ReachedGrows(wave, i, j - 1);
      }
    }
  }

  lemma LevelsDisjoint(wave: nat -> Wave, i: nat, j: nat)
    requires Extending(wave) && i < j
    ensures Ids(wave(i).level) !! Ids(wave(j).level)
  {
    ReachedGrows(wave, i, j - 1);
    assert ExtendsAt(wave, j - 1);
  }

  ghost predicate InSomeLevel(wave: nat -> Wave, h: nat, a: Activated) {
    exists i: nat :: i <= h && a in wave(i).level
  }

  lemma {:induction false} AllAreLevels(wave: nat -> Wave, h: nat, a: Activated)
    requires Extending(wave)
    ensures a in wave(h).all <==> InSomeLevel(wave, h, a)
  {
    if h > 0 {
      AllAreLevels(wave, h - 1, a);
      assert ExtendsAt(wave, h - 1);
      if InSomeLevel(wave, h, a) && a !in wave(h).level {
        assert InSomeLevel(wave, h - 1, a);
      }
    }
  }

  /** Every node of every level is returned, once. */
  lemma ResultsOnce(wave: nat -> Wave, h: nat)
    requires Extending(wave)
    ensures OncePerId(Ranking(wave(h)))
    ensures forall a :: a in Ranking(wave(h)) <==> InSomeLevel(wave, h, a)
  {
    EachNodeOnce(wave, h);
    SortPermutes(wave(h).all, MoreEnergy);
    OncePerIdPermutes(wave(h).all, Ranking(wave(h)));
    forall a ensures a in Ranking(wave(h)) <==> InSomeLevel(wave, h, a) {
      AllAreLevels(wave, h, a);
    }
  }

  // ----- traces -----

  /** The kept trace is that of one of the arrivals at the node. */
  lemma {:induction false} SettledTrace(arrivals: seq<Arrival>, t: Id, hop: nat, p: Params) returns (a: Arrival)
    requires Hits(arrivals, t)
    ensures a in arrivals && a.link.target == t && Settle(arrivals, t, hop, p).value.trace == TraceOf(a, hop)
    decreases |arrivals|
  {
    var n := |arrivals| - 1;
    var last := arrivals[n];
    if last.link.target == t && Settle(arrivals, t, hop, p).value.trace == TraceOf(last, hop) {
      a := last;
    } else {
      assert Settle(arrivals[..n], t, hop, p).Some?;
      a := SettledTrace(arrivals[..n], t, hop, p);
    }
  }

  /** Step `i` of a trace crosses a top link of the node before it. */
  ghost predicate CrossesLink(trace: seq<Hop>, i: nat, links: map<Id, seq<Link>>, p: Params)
    requires 0 < i < |trace|
  {
    exists l :: l in TopLinks(links, trace[i - 1].to, p)
      && trace[i] ==
           Hop(Some(trace[i - 1].to), l.target, Some(l.kind), None, HopByte(i), trace[i].energyIn, trace[i].energyIn)
      && trace[i].energyIn >= p.threshold
  }

  /** The trace runs from a seed through one node of every level to the node itself. */
  ghost predicate IsPath(a: Activated, wave: nat -> Wave, links: map<Id, seq<Link>>, h: nat, p: Params) {
    && |a.trace| == h + 1
    && (exists s :: s in wave(0).level && a.trace[..1] == s.trace)
    && (forall i {:trigger CrossesLink(a.trace, i, links, p)} :: 0 < i <= h ==> CrossesLink(a.trace, i, links, p))
    && (forall i: nat :: i <= h ==> a.trace[i].to in Ids(wave(i).level))
    && a.trace[h].to == a.id
  }

  ghost predicate NoRepeat(trace: seq<Hop>) {
    forall i, j :: 0 <= i < j < |trace| ==> trace[i].to != trace[j].to
  }

  /** A reached node comes from an arrival whose trace it carries. */
  lemma Origin(wave: nat -> Wave, seeds: seq<Activated>, links: map<Id, seq<Link>>, h: nat, p: Params, a: Activated)
    returns (c: Arrival)
    requires h > 0 && Spreads(wave, seeds, links, p) && a in wave(h).level
    ensures c.link.target == a.id && a.trace == TraceOf(c, h)
    ensures Traverses(c, wave(h - 1).level, links, wave(h - 1).reached, h, p)
  {
    var arrivals := RoundArrivals(wave, links, h, p);
    LevelOfArrivals(wave, seeds, links, h, p);
    NextLevelMembers(arrivals, h, p);
    c := SettledTrace(arrivals, a.id, h, p);
    ArrivalsMembers(wave(h - 1).level, links, wave(h - 1).reached, h, p);
  }

  lemma {:induction false} TracesArePaths(wave: nat -> Wave, seeds: seq<Activated>, links: map<Id, seq<Link>>, h: nat,
                                          p: Params, a: Activated)
    requires Spreads(wave, seeds, links, p) && SeedsWellFormed(seeds, p) && a in wave(h).level
    ensures IsPath(a, wave, links, h, p)
  {
    if h == 0 {
      assert a.trace[..1] == a.trace;
      assert a.id in Ids(wave(0).level);
    } else {
      var c := Origin(wave, seeds, links, h, p, a);
      TracesArePaths(wave, seeds, links, h - 1, p, c.source);
      ExtendPath(wave, links, h, p, a, c);
    }
  }

  lemma ExtendPath(wave: nat -> Wave, links: map<Id, seq<Link>>, h: nat, p: Params, a: Activated, c: Arrival)
    requires h > 0 && a in wave(h).level && IsPath(c.source, wave, links, h - 1, p)
    requires c.link in TopLinks(links, c.source.id, p) && c.energy >= p.threshold && c.link.target == a.id &&
             a.trace == TraceOf(c, h)
    ensures IsPath(a, wave, links, h, p)
  {
    var before := c.source.trace;
    assert a.trace[..1] == before[..1];
    assert a.id in Ids(wave(h).level);
    forall i {:trigger CrossesLink(a.trace, i, links, p)} | 0 < i <= h ensures CrossesLink(a.trace, i, links, p) {
      if i < h {
        assert CrossesLink(before, i, links, p);
        assert a.trace[i] == before[i] && a.trace[i - 1] == before[i - 1];
      }
    }
  }

  /** Step `i` of a trace is a link that the node before it has. */
  ghost predicate StepIsLink(trace: seq<Hop>, i: nat, links: map<Id, seq<Link>>)
    requires 0 < i < |trace|
  {
    var from := trace[i - 1].to;
    from in links && exists l :: l in links[from] && l.target == trace[i].to && trace[i].via == Some(l.kind)
  }

  ghost predicate FollowsLinks(trace: seq<Hop>, links: map<Id, seq<Link>>) {
    forall i :: 0 < i < |trace| ==> StepIsLink(trace, i, links)
  }

  /** A path invents no edge. */
  lemma PathFollowsLinks(a: Activated, wave: nat -> Wave, links: map<Id, seq<Link>>, h: nat, p: Params)
    requires IsPath(a, wave, links, h, p)
    ensures FollowsLinks(a.trace, links)
  {
    forall i | 0 < i < |a.trace| ensures StepIsLink(a.trace, i, links) {
      assert CrossesLink(a.trace, i, links, p);
      var l :| l in TopLinks(links, a.trace[i - 1].to, p) && a.trace[i].to == l.target &&
        a.trace[i].via == Some(l.kind);
      TopLinkIsReal(links, a.trace[i - 1].to, p, l);
    }
  }

  /** Traces do not repeat a node. */
  lemma TracesDoNotRepeat(wave: nat -> Wave, links: map<Id, seq<Link>>, h: nat, p: Params, a: Activated)
    requires Extending(wave) && IsPath(a, wave, links, h, p)
    ensures NoRepeat(a.trace)
  {
    forall i: nat, j: nat | i < j < |a.trace| ensures a.trace[i].to != a.trace[j].to {
      LevelsDisjoint(wave, i, j);
      assert a.trace[i].to in Ids(wave(i).level) && a.trace[j].to in Ids(wave(j).level);
    }
  }

  /**
   A later arrival takes the trace over exactly when the merge comes to its own energy: if it is no weaker, when the
   merge weight or the energy so far is zero; if it is weaker, at one weight only, a negative one between energies.
   */
  lemma TraceReplacedExactly(existing: real, arriving: real, p: Params)
    ensures Merge(existing, arriving, p) == arriving <==>
            if arriving >= existing then p.mergeWeight == 0.0 || existing == 0.0
            else arriving != 0.0 && p.mergeWeight == 1.0 - existing / arriving
  {
    var w := p.mergeWeight;
    if arriving >= existing {
      NoZeroDivisors(w, existing);
    } else if arriving != 0.0 {
      WeightOfDifference(w, existing, arriving);
    }
  }

  lemma WeightOfDifference(w: real, existing: real, arriving: real)
    requires arriving != 0.0
    ensures Scale(w, arriving) == arriving - existing <==> w == 1.0 - existing / arriving
  {
    var q := existing / arriving;
    assert q * arriving == existing;
    assert (1.0 - q) * arriving == arriving - q * arriving;
    NoZeroDivisors(w - (1.0 - q), arriving);
    assert Scale(w - (1.0 - q), arriving) == w * arriving - (1.0 - q) * arriving;
  }

  lemma NoZeroDivisors(x: real, y: real)
    ensures Scale(x, y) == 0.0 <==> x == 0.0 || y == 0.0
  {
    if x != 0.0 && y != 0.0 {
      assert Scale(x, y) / y == x;
    }
  }

  ghost predicate FirstTo(arrivals: seq<Arrival>, t: Id, k: nat) {
    k < |arrivals| && arrivals[k].link.target == t && forall i :: 0 <= i < k ==> arrivals[i].link.target != t
  }

  /** The first arrival at `t` that brings any energy. */
  ghost predicate Leads(arrivals: seq<Arrival>, t: Id, k: nat) {
    && k < |arrivals| && arrivals[k].link.target == t && arrivals[k].energy > 0.0
    && forall i :: 0 <= i < k && arrivals[i].link.target == t ==> arrivals[i].energy == 0.0
  }

  ghost predicate Strongest(arrivals: seq<Arrival>, t: Id, k: nat) {
    && k < |arrivals| && arrivals[k].link.target == t
    && forall i :: 0 <= i < |arrivals| && arrivals[i].link.target == t ==> arrivals[i].energy <= arrivals[k].energy
  }

  ghost predicate NonNegative(arrivals: seq<Arrival>) {
    forall i :: 0 <= i < |arrivals| ==> arrivals[i].energy >= 0.0
  }

  /** Until some arrival brings energy there is none. */
  lemma {:induction false} NothingSettled(arrivals: seq<Arrival>, t: Id, hop: nat, p: Params)
    requires forall i :: 0 <= i < |arrivals| && arrivals[i].link.target == t ==> arrivals[i].energy == 0.0
    ensures Settle(arrivals, t, hop, p).Some? ==> Settle(arrivals, t, hop, p).value.energy == 0.0
  {
    if arrivals != [] {
      NothingSettled(arrivals[..|arrivals| - 1], t, hop, p);
    }
  }

  /** With a positive merge weight the trace of the first arrival with energy is kept, whatever follows. */
  lemma {:induction false} LeaderTraceKept(arrivals: seq<Arrival>, t: Id, k: nat, hop: nat, p: Params)
    requires p.mergeWeight > 0.0 && NonNegative(arrivals) && Leads(arrivals, t, k)
    ensures Hits(arrivals, t) && Settle(arrivals, t, hop, p).value.trace == TraceOf(arrivals[k], hop)
    ensures Settle(arrivals, t, hop, p).value.energy > 0.0
    decreases |arrivals|
  {
    var n := |arrivals| - 1;
    var before, last := arrivals[..n], arrivals[n];
    if k < n {
      LeaderTraceKept(before, t, k, hop, p);
      if last.link.target == t {
        var e := Settle(before, t, hop, p).value.energy;
        TraceReplacedExactly(e, last.energy, p);
        MergeBounds(e, last.energy, p);
      }
    } else {
      NothingSettled(before, t, hop, p);
      TraceReplacedExactly(0.0, last.energy, p);
    }
  }

  /** With a positive threshold every arrival brings energy, so the very first one's trace is kept. */
  lemma FirstTraceKept(arrivals: seq<Arrival>, t: Id, k: nat, hop: nat, p: Params)
    requires p.mergeWeight > 0.0 && p.threshold > 0.0 && (forall a :: a in arrivals ==> a.energy >= p.threshold)
    requires FirstTo(arrivals, t, k)
    ensures Hits(arrivals, t) && Settle(arrivals, t, hop, p).value.trace == TraceOf(arrivals[k], hop)
  {
    assert forall i :: 0 <= i < |arrivals| ==> arrivals[i] in arrivals;
    LeaderTraceKept(arrivals, t, k, hop, p);
  }

  /** The node carries the trace of a strongest arrival. */
  ghost predicate KeepsStrongest(a: Activated, arrivals: seq<Arrival>, hop: nat) {
    exists k: nat :: Strongest(arrivals, a.id, k) && a.trace == TraceOf(arrivals[k], hop)
  }

  /** Without a merge weight the energy is that of the strongest arrival, and so is the trace. */
  lemma {:induction false} LastStrongestKept(arrivals: seq<Arrival>, t: Id, hop: nat, p: Params) returns (k: nat)
    requires p.mergeWeight == 0.0 && Hits(arrivals, t)
    ensures Strongest(arrivals, t, k) && Settle(arrivals, t, hop, p).value.trace == TraceOf(arrivals[k], hop)
    ensures Settle(arrivals, t, hop, p).value.energy == arrivals[k].energy
    decreases |arrivals|
  {
    var n := |arrivals| - 1;
    var before, last := arrivals[..n], arrivals[n];
    if !Hits(before, t) {
      k := n;
      assert forall i :: 0 <= i < n ==> before[i] == arrivals[i];
    } else {
      k := LastStrongestKept(before, t, hop, p);
      if last.link.target == t && last.energy >= before[k].energy {
        k := n;
      }
    }
  }

  /**
   The comment says that the trace of the highest-energy path is kept. Exactly: it is if and only if the merge weight
   is zero or the first arrival that brings energy is a strongest one.
   */
  lemma StrongestTraceKeptExactly(arrivals: seq<Arrival>, t: Id, hop: nat, p: Params)
    requires p.mergeWeight >= 0.0 && NonNegative(arrivals) && Hits(arrivals, t)
    ensures KeepsStrongest(Settle(arrivals, t, hop, p).value, arrivals, hop) <==>
            p.mergeWeight == 0.0 || forall k: nat :: Leads(arrivals, t, k) ==> Strongest(arrivals, t, k)
  {
    var a := Settle(arrivals, t, hop, p).value;
    if p.mergeWeight == 0.0 {
      var k := LastStrongestKept(arrivals, t, hop, p);
    } else if k: nat :| Leads(arrivals, t, k) {
      LeaderTraceKept(arrivals, t, k, hop, p);
      forall j: nat | Strongest(arrivals, t, j) && TraceOf(arrivals[j], hop) == TraceOf(arrivals[k], hop)
        ensures Strongest(arrivals, t, k)
      {
        SameTraceSameEnergy(arrivals[j], arrivals[k], hop);
      }
      forall j: nat | Leads(arrivals, t, j) ensures j == k {
      }
    } else {
      AllIdle(arrivals, t);
      var c := SettledTrace(arrivals, t, hop, p);
      var k :| 0 <= k < |arrivals| && arrivals[k] == c;
      assert Strongest(arrivals, t, k);
    }
  }

  /** The last hop of a trace records the energy with which it arrived. */
  lemma SameTraceSameEnergy(a: Arrival, b: Arrival, hop: nat)
    requires TraceOf(a, hop) == TraceOf(b, hop)
    ensures a.energy == b.energy
  {
    var x, y := TraceOf(a, hop), TraceOf(b, hop);
    assert x[|x| - 1].energyOut == a.energy && y[|y| - 1].energyOut == b.energy;
  }

  lemma {:induction false} AllIdle(arrivals: seq<Arrival>, t: Id)
    requires NonNegative(arrivals) && forall k: nat :: !Leads(arrivals, t, k)
    ensures forall i :: 0 <= i < |arrivals| && arrivals[i].link.target == t ==> arrivals[i].energy == 0.0
  {
    if arrivals != [] {
      var n := |arrivals| - 1;
      var before := arrivals[..n];
      forall k: nat ensures !Leads(before, t, k) {
        assert !Leads(arrivals, t, k);
      }
      AllIdle(before, t);
      assert forall i :: 0 <= i < n ==> before[i] == arrivals[i];
      assert !Leads(arrivals, t, n);
    }
  }

  /** Over a run: a returned node carries the trace of a strongest arrival under just that condition. */
  lemma ReturnedTraceStrongestExactly(wave: nat -> Wave, seeds: seq<Activated>, links: map<Id, seq<Link>>, h: nat,
                                      p: Params, a: Activated)
    requires h > 0 && Spreads(wave, seeds, links, p) && p.mergeWeight >= 0.0 && a in wave(h).level
    ensures var arrivals := RoundArrivals(wave, links, h, p);
            KeepsStrongest(a, arrivals, h) <==>
            p.mergeWeight == 0.0 || forall k: nat :: Leads(arrivals, a.id, k) ==> Strongest(arrivals, a.id, k)
  {
    var w, arrivals := wave(h - 1), RoundArrivals(wave, links, h, p);
    LevelOfArrivals(wave, seeds, links, h, p);
    NextLevelMembers(arrivals, h, p);
    ArrivalsMembers(w.level, links, w.reached, h, p);
    forall i | 0 <= i < |arrivals| ensures arrivals[i].energy >= 0.0 {
      assert arrivals[i] in arrivals;
    }
    StrongestTraceKeptExactly(arrivals, a.id, h, p);
  }

  // ----- limiting the hops -----

  /** `keep` holds of exactly the levels up to `h`, as far as the limit goes. */
  ghost predicate Separates(wave: nat -> Wave, h: nat, limit: nat, keep: Activated -> bool) {
    forall i: nat, a :: i <= limit && a in wave(i).level ==> (keep(a) <==> i <= h)
  }

  /** Filtering out later levels gives back the shorter run. */
  lemma {:induction false} EarlierLevels(wave: nat -> Wave, h: nat, limit: nat, keep: Activated -> bool)
    requires Extending(wave) && h <= limit && Separates(wave, h, limit, keep)
    ensures Filter(wave(limit).all, keep) == wave(h).all
    decreases limit
  {
    if limit == h {
      forall a | a in wave(h).all ensures keep(a) {
        AllAreLevels(wave, h, a);
      }
      FilterAll(wave(h).all, keep);
    } else {
      EarlierLevels(wave, h, limit - 1, keep);
      FilterNone(wave(limit).level, keep);
      assert ExtendsAt(wave, limit - 1);
      FilterConcat(wave(limit - 1).all, wave(limit).level, keep);
    }
  }

  lemma ShorterRun(wave: nat -> Wave, h: nat, limit: nat, keep: Activated -> bool)
    requires Extending(wave) && h <= limit && Separates(wave, h, limit, keep)
    ensures Ranking(wave(h)) == Filter(Ranking(wave(limit)), keep)
  {
    EarlierLevels(wave, h, limit, keep);
    FilterSort(wave(limit).all, MoreEnergy, keep);
  }

  function NoLongerThan(n: nat): Activated -> bool {
    (a: Activated) => |a.trace| <= n
  }

  function ReachedBy(h: nat): Activated -> bool {
    (a: Activated) => a.trace != [] && a.trace[|a.trace| - 1].hop <= h
  }

  /** A run with fewer hops returns exactly the part of the longer run with traces that short, in the same order. */
  lemma FewerHops(wave: nat -> Wave, seeds: seq<Activated>, links: map<Id, seq<Link>>, h: nat, limit: nat, p: Params)
    requires Spreads(wave, seeds, links, p) && SeedsWellFormed(seeds, p) && h <= limit
    ensures Ranking(wave(h)) == Filter(Ranking(wave(limit)), NoLongerThan(h + 1))
  {
    forall i: nat, a | i <= limit && a in wave(i).level ensures NoLongerThan(h + 1)(a) <==> i <= h {
      TracesArePaths(wave, seeds, links, i, p, a);
    }
    RunExtends(wave, seeds, links, p);
    ShorterRun(wave, h, limit, NoLongerThan(h + 1));
  }

  /** The recorded hop is the level modulo 256. */
  lemma LastHop(wave: nat -> Wave, seeds: seq<Activated>, links: map<Id, seq<Link>>, h: nat, p: Params, a: Activated)
    requires Spreads(wave, seeds, links, p) && SeedsWellFormed(seeds, p) && a in wave(h).level
    ensures |a.trace| == h + 1 && a.trace[h].hop == h % 256
  {
    TracesArePaths(wave, seeds, links, h, p, a);
    if h > 0 {
      assert CrossesLink(a.trace, h, links, p);
    } else {
      assert a.trace[..1] == a.trace;
    }
  }

  /** No level past `h` is recorded with a hop up to `h`; so for every limit up to 255. */
  ghost predicate NoWrap(wave: nat -> Wave, h: nat, limit: nat) {
    forall i: nat :: h < i <= limit && i % 256 <= h ==> wave(i).level == []
  }

  /** The recorded hop tells which shorter run already returns a node exactly as long as no level wraps around. */
  lemma FewerHopsByRecord(wave: nat -> Wave, seeds: seq<Activated>, links: map<Id, seq<Link>>, h: nat, limit: nat,
                          p: Params)
    requires Spreads(wave, seeds, links, p) && SeedsWellFormed(seeds, p) && h <= limit
    ensures Ranking(wave(h)) == Filter(Ranking(wave(limit)), ReachedBy(h)) <==> NoWrap(wave, h, limit)
    ensures limit <= 255 ==> NoWrap(wave, h, limit)
  {
    RunExtends(wave, seeds, links, p);
    if NoWrap(wave, h, limit) {
      forall i: nat, a | i <= limit && a in wave(i).level ensures ReachedBy(h)(a) <==> i <= h {
        LastHop(wave, seeds, links, i, p, a);
      }
      ShorterRun(wave, h, limit, ReachedBy(h));
    } else {
      var i: nat :| h < i <= limit && i % 256 <= h && wave(i).level != [];
      WrappedNodeSlipsIn(wave, seeds, links, h, limit, p, i);
    }
  }

  lemma WrappedNodeSlipsIn(wave: nat -> Wave, seeds: seq<Activated>, links: map<Id, seq<Link>>, h: nat, limit: nat,
                           p: Params, i: nat)
    requires Spreads(wave, seeds, links, p) && SeedsWellFormed(seeds, p) && Extending(wave)
    requires h < i <= limit && i % 256 <= h && wave(i).level != []
    ensures Ranking(wave(h)) != Filter(Ranking(wave(limit)), ReachedBy(h))
  {
    var a := wave(i).level[0];
    LastHop(wave, seeds, links, i, p, a);
    ResultsOnce(wave, limit);
    ResultsOnce(wave, h);
    FilterMembers(Ranking(wave(limit)), ReachedBy(h));
    assert InSomeLevel(wave, limit, a);
    if InSomeLevel(wave, h, a) {
      var j: nat :| j <= h && a in wave(j).level;
      LastHop(wave, seeds, links, j, p, a);
    }
  }

  /** A run that has died out stays as it is, so stopping at an empty level changes nothing. */
  lemma {:induction false} StopsWhenEmpty(wave: nat -> Wave, seeds: seq<Activated>, links: map<Id, seq<Link>>, h: nat,
                                          limit: nat, p: Params)
    requires Spreads(wave, seeds, links, p) && h <= limit && wave(h).level == []
    ensures wave(limit) == wave(h)
    decreases limit
  {
    if h < limit {
      StopsWhenEmpty(wave, seeds, links, h, limit - 1, p);
      assert StepAt(wave, limit - 1, links, p);
      EmptyAdvance(wave(h), links, limit, p);
    }
  }

  lemma EmptyAdvance(w: Wave, links: map<Id, seq<Link>>, h: nat, p: Params)
    requires w.level == []
    ensures Advance(w, links, h, p) == w
  {
    var arrivals := Arrivals(w.level, links, w.reached, h, p);
    assert arrivals == [] && Targets(arrivals) == [];
    assert NextLevel(arrivals, h, p) == [];
  }

  // ----- energies -----

  /**
   A surviving traversal starts in the level before, leads to a new node, brings what its link passes on, and reaches
   the threshold.
   */
  lemma ArrivalEnergies(wave: nat -> Wave, links: map<Id, seq<Link>>, h: nat, p: Params, c: Arrival)
    requires h > 0 && c in RoundArrivals(wave, links, h, p)
    ensures c.source in wave(h - 1).level && c.link.target !in wave(h - 1).reached && c.energy >= p.threshold
    ensures Passes(c.energy, c.source.energy, c.link, h, p)
  {
    ArrivalsMembers(wave(h - 1).level, links, wave(h - 1).reached, h, p);
    PropagatedPasses(c.source.energy, c.link, h, p);
  }

  function OnlyTo(t: Id): Arrival -> real {
    (a: Arrival) => if a.link.target == t then a.energy else 0.0
  }

  /** A node's energy lies between its largest arrival and the sum of its arrivals. */
  lemma {:induction false} SettledEnergy(arrivals: seq<Arrival>, t: Id, hop: nat, p: Params)
    requires p.mergeWeight >= 0.0 && forall a :: a in arrivals ==> a.energy >= 0.0
    ensures !Hits(arrivals, t) ==> Sum(arrivals, OnlyTo(t)) == 0.0
    ensures Hits(arrivals, t) ==>
      var e := Settle(arrivals, t, hop, p).value.energy;
      (forall a :: a in arrivals && a.link.target == t ==> a.energy <= e) &&
        (p.mergeWeight <= 1.0 ==> e <= Sum(arrivals, OnlyTo(t)))
  {
    if arrivals != [] {
      var n := |arrivals| - 1;
      var before, last := arrivals[..n], arrivals[n];
      SettledEnergy(before, t, hop, p);
      assert arrivals == before + [last];
      SumConcat(before, [last], OnlyTo(t));
      assert [last][1..] == [];
      assert last in arrivals;
      if Hits(before, t) && last.link.target == t {
        var a :| a in before && a.link.target == t;
        MergeBounds(Settle(before, t, hop, p).value.energy, last.energy, p);
      }
    }
  }

  lemma RoundEnergies(wave: nat -> Wave, seeds: seq<Activated>, links: map<Id, seq<Link>>, h: nat, p: Params,
                      a: Activated)
    requires h > 0 && Spreads(wave, seeds, links, p) && p.mergeWeight >= 0.0 && a in wave(h).level
    ensures Hits(RoundArrivals(wave, links, h, p), a.id)
    ensures forall c :: c in RoundArrivals(wave, links, h, p) && c.link.target == a.id ==>
            p.threshold <= c.energy <= a.energy
    ensures p.mergeWeight <= 1.0 ==> a.energy <= Sum(RoundArrivals(wave, links, h, p), OnlyTo(a.id))
  {
    var w, arrivals := wave(h - 1), RoundArrivals(wave, links, h, p);
    LevelOfArrivals(wave, seeds, links, h, p);
    ArrivalsMembers(w.level, links, w.reached, h, p);
    NextLevelMembers(arrivals, h, p);
    SettledEnergy(arrivals, a.id, h, p);
  }

  /** Every returned energy is at least the propagation threshold. */
  lemma EnergiesReachThreshold(wave: nat -> Wave, seeds: seq<Activated>, links: map<Id, seq<Link>>, h: nat, p: Params,
                               a: Activated)
    requires Spreads(wave, seeds, links, p) && SeedsWellFormed(seeds, p) && p.mergeWeight >= 0.0 &&
             a in Ranking(wave(h))
    ensures a.energy >= p.threshold
  {
    RunExtends(wave, seeds, links, p);
    ResultsOnce(wave, h);
    var i: nat :| i <= h && a in wave(i).level;
    if i > 0 {
      RoundEnergies(wave, seeds, links, i, p, a);
      var arrivals := RoundArrivals(wave, links, i, p);
      var k :| 0 <= k < |arrivals| && arrivals[k].link.target == a.id;
      assert arrivals[k] in arrivals;
    }
  }

  // ----- conservation over the run -----

  ghost function Traversals(wave: nat -> Wave, links: map<Id, seq<Link>>, h: nat, p: Params): nat {
    if h == 0 then 0 else Traversals(wave, links, h - 1, p) + |RoundArrivals(wave, links, h, p)|
  }

  /** Over a whole run merges and newly reached nodes account for every surviving traversal. */
  lemma {:induction false} RunConserves(wave: nat -> Wave, seeds: seq<Activated>, links: map<Id, seq<Link>>, h: nat,
                                        p: Params)
    requires Spreads(wave, seeds, links, p)
    ensures wave(h).merges + |wave(h).all| == |seeds| + Traversals(wave, links, h, p)
  {
    if h > 0 {
      RunConserves(wave, seeds, links, h - 1, p);
      LevelOfArrivals(wave, seeds, links, h, p);
      TraversalsConserved(RoundArrivals(wave, links, h, p), h, p);
    }
  }
}
