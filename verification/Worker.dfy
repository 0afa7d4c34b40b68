/** One consolidation cycle over all units (`hippmem-consolidation/src/worker.rs`). */
module Worker {
  import opened MemoryModel
  import opened Sorting
  import opened ActivationLogs
  import opened Hebbian
  import opened Decay
  import opened Compaction

  /** What one cycle is given: weighted pairs, rejected ids and the clock. */
  datatype CycleInput = CycleInput(pairs: seq<CoPair>, rejected: seq<Id>, now: int)

  datatype CycleStats = CycleStats(hebbianApplied: nat, edgesDecayed: nat, edgesArchived: nat)

  // ----- one unit through one cycle -----

  function Reinforced(id: Id, links: seq<Link>, input: CycleInput): seq<Link> {
    AddLinks(id, ReinforceAll(links, input.pairs, input.now), CoLinks(input.pairs, input.now))
  }

  function Weakened(id: Id, links: seq<Link>, input: CycleInput): seq<Link> {
    WeakenAll(id, Reinforced(id, links, input), input.rejected, input.now)
  }

  function Decayed(id: Id, links: seq<Link>, input: CycleInput, curve: Curve): seq<Link> {
    DecayLinks(Weakened(id, links, input), input.now, curve)
  }

  function CycleLinks(id: Id, links: seq<Link>, input: CycleInput, curve: Curve): seq<Link> {
    Kept(Decayed(id, links, input, curve), DEGREE_LIMIT)
  }

  function CycleUnit(u: MemoryUnit, input: CycleInput, curve: Curve): MemoryUnit {
    u.(links := CycleLinks(u.id, u.links, input, curve))
  }

  function CycleUnits(units: seq<MemoryUnit>, input: CycleInput, curve: Curve): (r: seq<MemoryUnit>)
    ensures |r| == |units|
  {
    seq(|units|, i requires 0 <= i < |units| => CycleUnit(units[i], input, curve))
  }

  /** Edges that the degree limit cuts. */
  function Overflow(n: nat): nat {
    if n > DEGREE_LIMIT then n - DEGREE_LIMIT else 0
  }

  // ----- what each stage keeps -----

  lemma ReinforcedValid(id: Id, links: seq<Link>, input: CycleInput)
    requires UniqueLinks(links) && StrengthsInRange(links)
    ensures UniqueLinks(Reinforced(id, links, input)) && StrengthsInRange(Reinforced(id, links, input))
    ensures NoSelfLoop(id, links) && NoSelfPair(id, input.pairs) ==> NoSelfLoop(id, Reinforced(id, links, input))
  {
    var a := ReinforceAll(links, input.pairs, input.now);
    forall i | 0 <= i < |links| ensures SameEdge(a[i], links[i]) && 0.0 <= a[i].strength <= 1.0 {
      assert links[i] in links;
      ReinforceClosedForm(links[i], input.pairs, input.now);
    }
    assert NoSelfLoop(id, links) ==> NoSelfLoop(id, a);
    var news := CoLinks(input.pairs, input.now);
    AddLinksUnique(id, a, news);
    AddLinksShape(id, a, news);
    CoLinksMembers(input.pairs, input.now);
    if NoSelfLoop(id, links) {
      SelfLoopExactly(id, a, input.pairs, input.now);
    }
  }

  lemma WeakenedSame(id: Id, links: seq<Link>, rejected: seq<Id>, now: int)
    requires StrengthsInRange(links)
    ensures StrengthsInRange(WeakenAll(id, links, rejected, now))
    ensures forall i :: 0 <= i < |links| ==> SameEdge(WeakenAll(id, links, rejected, now)[i], links[i])
    ensures UniqueLinks(links) ==> UniqueLinks(WeakenAll(id, links, rejected, now))
    ensures NoSelfLoop(id, links) ==> NoSelfLoop(id, WeakenAll(id, links, rejected, now))
  {
    var w := WeakenAll(id, links, rejected, now);
    forall i | 0 <= i < |links| ensures SameEdge(w[i], links[i]) && 0.0 <= w[i].strength <= 1.0 {
      assert links[i] in links;
    }
  }

  /** After decay every edge is protected or at least at the floor, so compaction's threshold finds nothing. */
  lemma DecayedRetained(links: seq<Link>, now: int, curve: Curve)
    ensures StrengthsInRange(links) ==> StrengthsInRange(DecayLinks(links, now, curve))
    ensures forall l :: l in DecayLinks(links, now, curve) ==> Retain(l)
    ensures forall d :: d in DecayLinks(links, now, curve) ==> HasEdge(links, d.target, d.kind)
    ensures forall id :: NoSelfLoop(id, links) ==> NoSelfLoop(id, DecayLinks(links, now, curve))
  {
    DecayMembers(links, now, curve);
    forall d | d in DecayLinks(links, now, curve)
      ensures (StrengthsInRange(links) ==> 0.0 <= d.strength <= 1.0) && Retain(d) && HasEdge(links, d.target, d.kind)
    {
      var l :| l in links && DecayBy(l, Factor(l, now, curve)) == Some(d);
    }
  }

  /** The link invariants, the degree limit and the strength floor that a cycle establishes. */
  predicate Settled(id: Id, links: seq<Link>) {
    ValidLinks(id, links) && |links| <= DEGREE_LIMIT && forall l :: l in links ==> Retain(l)
  }

  /**
   One cycle keeps the link invariants and establishes the limit and the floor, unless it pairs the unit with itself.
   */
  lemma CycleSettles(id: Id, links: seq<Link>, input: CycleInput, curve: Curve)
    requires ValidLinks(id, links) && NoSelfPair(id, input.pairs)
    ensures Settled(id, CycleLinks(id, links, input, curve))
  {
    var r, w := Reinforced(id, links, input), Weakened(id, links, input);
    ReinforcedValid(id, links, input);
    WeakenedSame(id, r, input.rejected, input.now);
    DecayedRetained(w, input.now, curve);
    DecayUnique(w, input.now, curve);
    KeptUnique(Decayed(id, links, input, curve), DEGREE_LIMIT);
    CompactionConserves(Decayed(id, links, input, curve), DEGREE_LIMIT);
  }

  /** Whatever the pairs, a cycle keeps links unique and strengths in range. */
  lemma CycleKeepsUnique(id: Id, links: seq<Link>, input: CycleInput, curve: Curve)
    requires UniqueLinks(links) && StrengthsInRange(links)
    ensures UniqueLinks(Decayed(id, links, input, curve)) && StrengthsInRange(Decayed(id, links, input, curve))
    ensures forall l :: l in Decayed(id, links, input, curve) ==> Retain(l)
    ensures UniqueLinks(CycleLinks(id, links, input, curve)) && StrengthsInRange(CycleLinks(id, links, input, curve))
  {
    var r, w := Reinforced(id, links, input), Weakened(id, links, input);
    ReinforcedValid(id, links, input);
    WeakenedSame(id, r, input.rejected, input.now);
    DecayedRetained(w, input.now, curve);
    DecayUnique(w, input.now, curve);
    KeptUnique(Decayed(id, links, input, curve), DEGREE_LIMIT);
  }

  /** Because decay's floor is compaction's threshold, a cycle archives exactly the degree overflow. */
  lemma ArchivesExactlyOverflow(id: Id, links: seq<Link>, input: CycleInput, curve: Curve)
    requires StrengthsInRange(links)
    ensures var d := Decayed(id, links, input, curve);
            |ArchivedLinks(d, DEGREE_LIMIT)| == Overflow(|d|) &&
              |CycleLinks(id, links, input, curve)| == |d| - Overflow(|d|)
            && (|d| <= DEGREE_LIMIT ==> CycleLinks(id, links, input, curve) == d)
  {
    ReinforcedInRange(id, links, input);
    WeakenedSame(id, Reinforced(id, links, input), input.rejected, input.now);
    DecayedRetained(Weakened(id, links, input), input.now, curve);
    OnlyOverflowGoes(Decayed(id, links, input, curve));
  }

  lemma OnlyOverflowGoes(d: seq<Link>)
    requires forall l :: l in d ==> Retain(l)
    ensures |ArchivedLinks(d, DEGREE_LIMIT)| == Overflow(|d|) && |Kept(d, DEGREE_LIMIT)| == |d| - Overflow(|d|)
    ensures |d| <= DEGREE_LIMIT ==> Kept(d, DEGREE_LIMIT) == d
  {
    FilterAll(d, Retain);
    FilterNone(d, Drop);
    SortPermutes(d, Stronger);
  }

  lemma ReinforcedInRange(id: Id, links: seq<Link>, input: CycleInput)
    requires StrengthsInRange(links)
    ensures StrengthsInRange(Reinforced(id, links, input))
  {
    var a := ReinforceAll(links, input.pairs, input.now);
    forall i | 0 <= i < |links| ensures 0.0 <= a[i].strength <= 1.0 {
      assert links[i] in links;
      ReinforceClosedForm(links[i], input.pairs, input.now);
    }
    AddLinksShape(id, a, CoLinks(input.pairs, input.now));
    CoLinksMembers(input.pairs, input.now);
  }

  // ----- many cycles -----

  function RunCycles(id: Id, links: seq<Link>, inputs: seq<CycleInput>, curve: Curve): seq<Link> {
    if inputs == [] then links
    else CycleLinks(id, RunCycles(id, links, inputs[..|inputs| - 1], curve), inputs[|inputs| - 1], curve)
  }

  ghost predicate NoSelfPairs(id: Id, inputs: seq<CycleInput>) {
    forall i :: 0 <= i < |inputs| ==> NoSelfPair(id, inputs[i].pairs)
  }

  /** Any number of cycles: valid links stay valid, and after the first one the degree and the floor hold too. */
  lemma {:induction false} CyclesKeepInvariant(id: Id, links: seq<Link>, inputs: seq<CycleInput>, curve: Curve)
    requires ValidLinks(id, links) && NoSelfPairs(id, inputs)
    ensures ValidLinks(id, RunCycles(id, links, inputs, curve))
    ensures inputs != [] ==> Settled(id, RunCycles(id, links, inputs, curve))
  {
    if inputs != [] {
      var init, last := inputs[..|inputs| - 1], inputs[|inputs| - 1];
      CyclesKeepInvariant(id, links, init, curve);
      CycleSettles(id, RunCycles(id, links, init, curve), last, curve);
    }
  }

  // ----- idempotence: the same pairs create no edges twice -----

  /** An edge activated in this very cycle is not decayed away. */
  predicate FreshEdge(links: seq<Link>, target: Id, now: int) {
    exists l ::
      && l in links && l.target == target && l.kind == Causal && l.lastActivatedAt == Some(now)
      && l.strength >= MIN_RETAINED
  }

  lemma QualifyingEdgeIsFresh(id: Id, links: seq<Link>, input: CycleInput, p: CoPair)
    requires StrengthsInRange(links) && p in input.pairs && Qualifies(p) && p.a == id
    ensures FreshEdge(Weakened(id, links, input), p.b, input.now)
  {
    var a := ReinforceAll(links, input.pairs, input.now);
    var news := CoLinks(input.pairs, input.now);
    var r, w := Reinforced(id, links, input), Weakened(id, links, input);
    AddLinksShape(id, a, news);
    CoLinksMembers(input.pairs, input.now);
    assert IsCoLink((id, NewLink(p, input.now)), p, input.now);
    var l :| l in r && l.target == p.b && l.kind == Causal;
    assert l.lastActivatedAt == Some(input.now) && 0.24 <= l.strength <= 1.0 by {
      if l in a {
        var i :| 0 <= i < |a| && a[i] == l;
        assert links[i] in links;
        ReinforceClosedForm(links[i], input.pairs, input.now);
        MatchCountPositive(p.b, input.pairs, p);
      } else {
        var q :| q in input.pairs && IsCoLink((id, l), q, input.now);
      }
    }
    var i :| 0 <= i < |r| && r[i] == l;
    assert w[i] in w;
  }

  lemma {:induction false} MatchCountPositive(target: Id, pairs: seq<CoPair>, p: CoPair)
    requires p in pairs && Matches(target, p)
    ensures MatchCount(target, pairs) > 0
  {
    var init, last := pairs[..|pairs| - 1], pairs[|pairs| - 1];
    if last != p {
      assert pairs == init + [last];
      MatchCountPositive(target, init, p);
    }
  }

  lemma FreshEdgeSurvives(links: seq<Link>, target: Id, now: int, curve: Curve)
    requires StrengthsInRange(links) && IsCurve(curve) && FreshEdge(links, target, now)
    ensures HasEdge(DecayLinks(links, now, curve), target, Causal)
  {
    var l :| l in links && l.target == target && l.kind == Causal && l.lastActivatedAt == Some(now) &&
      l.strength >= MIN_RETAINED;
    assert Factor(l, now, curve) == 1.0;
    assert Scale(l.strength, 1.0) == l.strength;
    var d := DecayBy(l, Factor(l, now, curve));
    assert d.Some? && d.value.target == target && d.value.kind == Causal;
    DecayMembers(links, now, curve);
    assert d.value in DecayLinks(links, now, curve);
  }

  /**
   The degree limit cuts the self-loops: the degree is exceeded, and a self-loop has at least as many edges ahead of it
   in strength, or as strong and earlier, as the limit keeps.
   */
  ghost predicate SelfLoopCut(id: Id, links: seq<Link>) {
    |links| > DEGREE_LIMIT && forall i :: 0 <= i < |links| && links[i].target == id ==>
      Rank(links, i, Stronger) >= DEGREE_LIMIT
  }

  /** The self-loop that a pair at the threshold makes is too fresh to decay. */
  lemma SelfPairLoops(id: Id, links: seq<Link>, input: CycleInput, curve: Curve)
    requires StrengthsInRange(links) && IsCurve(curve) && !NoSelfPair(id, input.pairs)
    ensures HasEdge(Decayed(id, links, input, curve), id, Causal)
  {
    var p :| p in input.pairs && Qualifies(p) && p.a == id && p.b == id;
    QualifyingEdgeIsFresh(id, links, input, p);
    ReinforcedInRange(id, links, input);
    WeakenedSame(id, Reinforced(id, links, input), input.rejected, input.now);
    FreshEdgeSurvives(Weakened(id, links, input), id, input.now, curve);
  }

  /** Compaction removes the self-loops exactly when there are none or the degree limit cuts them. */
  lemma KeptSelfLoopExactly(id: Id, d: seq<Link>)
    requires UniqueLinks(d) && forall l :: l in d ==> Retain(l)
    ensures NoSelfLoop(id, Kept(d, DEGREE_LIMIT)) <==> NoSelfLoop(id, d) || SelfLoopCut(id, d)
  {
    FilterAll(d, Retain);
    KeptUnique(d, DEGREE_LIMIT);
    forall i | 0 <= i < |d|
      ensures d[i] in Kept(d, DEGREE_LIMIT) <==> |d| <= DEGREE_LIMIT || Rank(d, i, Stronger) < DEGREE_LIMIT
    {
      ProtectedEdgeStays(d, DEGREE_LIMIT, i);
    }
  }

  /**
   Exactly: the invariants survive a cycle if and only if no pair at the threshold pairs the unit with itself or the
   degree limit cuts the self-loop that this makes.
   */
  lemma CycleSettlesExactly(id: Id, links: seq<Link>, input: CycleInput, curve: Curve)
    requires ValidLinks(id, links) && IsCurve(curve)
    ensures Settled(id, CycleLinks(id, links, input, curve)) <==> NoSelfLoop(id, CycleLinks(id, links, input, curve))
    ensures Settled(id, CycleLinks(id, links, input, curve)) <==>
            NoSelfPair(id, input.pairs) || SelfLoopCut(id, Decayed(id, links, input, curve))
  {
    var d := Decayed(id, links, input, curve);
    CycleKeepsUnique(id, links, input, curve);
    KeptUnique(d, DEGREE_LIMIT);
    CompactionConserves(d, DEGREE_LIMIT);
    KeptSelfLoopExactly(id, d);
    if NoSelfPair(id, input.pairs) {
      CycleSettles(id, links, input, curve);
    } else {
      SelfPairLoops(id, links, input, curve);
    }
  }

  /**
   With the pairs of a feedback log: a unit settles exactly when what its id weighs with itself stays below the
   threshold, or the degree limit cuts the self-loop.
   */
  lemma FeedbackSettles(id: Id, links: seq<Link>, records: seq<FeedbackRecord>, window: int, input: CycleInput,
                        curve: Curve)
    requires ValidLinks(id, links) && ArePairsOf(input.pairs, LogOf(records), window)
    ensures PairWeight(LogOf(records), window, (id, id)) < COACTIVATION_THRESHOLD ==>
              Settled(id, CycleLinks(id, links, input, curve))
    ensures IsCurve(curve) ==>
              (Settled(id, CycleLinks(id, links, input, curve)) <==>
               PairWeight(LogOf(records), window, (id, id)) < COACTIVATION_THRESHOLD
               || SelfLoopCut(id, Decayed(id, links, input, curve)))
  {
    SelfPairExactly(id, input.pairs, LogOf(records), window);
    if NoSelfPair(id, input.pairs) {
      CycleSettles(id, links, input, curve);
    }
    if IsCurve(curve) {
      CycleSettlesExactly(id, links, input, curve);
    }
  }

  /**
   A second cycle on the same pairs never leaves a unit with more edges, whatever was rejected and whatever time
   passed.
   */
  lemma EdgeCountNeverGrows(id: Id, links: seq<Link>, first: CycleInput, second: CycleInput, curve: Curve)
    requires StrengthsInRange(links) && IsCurve(curve) && first.pairs == second.pairs
    ensures var once := CycleLinks(id, links, first, curve);
            |CycleLinks(id, once, second, curve)| <= |once|
  {
    var d := Decayed(id, links, first, curve);
    var once := CycleLinks(id, links, first, curve);
    ArchivesExactlyOverflow(id, links, first, curve);
    CompactionConserves(Decayed(id, once, second, curve), DEGREE_LIMIT);
    if |d| <= DEGREE_LIMIT {
      ReinforcedInRange(id, links, first);
      WeakenedSame(id, Reinforced(id, links, first), first.rejected, first.now);
      SecondPassAddsNothing(id, links, first, second, curve);
      DecayMembers(Weakened(id, once, second), second.now, curve);
      CycleAtMostDecayed(id, once, second, curve);
    }
  }

  lemma CycleAtMostDecayed(id: Id, links: seq<Link>, input: CycleInput, curve: Curve)
    ensures |CycleLinks(id, links, input, curve)| <= |Decayed(id, links, input, curve)|
  {
    var d := Decayed(id, links, input, curve);
    CompactionConserves(d, DEGREE_LIMIT);
    assert |multiset(Kept(d, DEGREE_LIMIT)) + multiset(ArchivedLinks(d, DEGREE_LIMIT))| == |multiset(d)| == |d|;
  }

  lemma SecondPassAddsNothing(id: Id, links: seq<Link>, first: CycleInput, second: CycleInput, curve: Curve)
    requires StrengthsInRange(links) && IsCurve(curve) && first.pairs == second.pairs
    requires StrengthsInRange(Weakened(id, links, first))
    requires CycleLinks(id, links, first, curve) == Decayed(id, links, first, curve)
    ensures |Reinforced(id, CycleLinks(id, links, first, curve), second)| == |CycleLinks(id, links, first, curve)|
  {
    var once := CycleLinks(id, links, first, curve);
    var a := ReinforceAll(once, second.pairs, second.now);
    var news := CoLinks(second.pairs, second.now);
    CoLinksMembers(second.pairs, second.now);
    forall n | n in news && n.0 == id ensures HasEdge(a, n.1.target, n.1.kind) {
      var p :| p in second.pairs && IsCoLink(n, p, second.now);
      QualifyingEdgeIsFresh(id, links, first, p);
      FreshEdgeSurvives(Weakened(id, links, first), p.b, first.now, curve);
      var l :| l in once && l.target == p.b && l.kind == Causal;
      var i :| 0 <= i < |once| && once[i] == l;
      ReinforceSameEdge(l, second.pairs, second.now);
      assert a[i] in a;
    }
    NothingToAdd(id, a, news);
  }

  lemma {:induction false} ReinforceSameEdge(l: Link, pairs: seq<CoPair>, now: int)
    ensures SameEdge(ReinforceLink(l, pairs, now), l)
  {
    if pairs != [] {
      ReinforceSameEdge(l, pairs[..|pairs| - 1], now);
    }
  }

  // ----- cycles without feedback -----

  /** Nothing reaches the co-activation threshold and nothing was rejected. */
  predicate Quiet(input: CycleInput) {
    input.rejected == [] && forall p :: p in input.pairs ==> !Qualifies(p)
  }

  lemma {:induction false} QuietPairs(l: Link, pairs: seq<CoPair>, now: int)
    requires forall p :: p in pairs ==> !Qualifies(p)
    ensures ReinforceLink(l, pairs, now) == l
  {
    if pairs != [] {
      QuietPairs(l, pairs[..|pairs| - 1], now);
      assert pairs[|pairs| - 1] in pairs;
    }
  }

  lemma QuietStages(id: Id, links: seq<Link>, input: CycleInput)
    requires Quiet(input)
    ensures Weakened(id, links, input) == links
  {
    var a := ReinforceAll(links, input.pairs, input.now);
    forall i | 0 <= i < |links| ensures a[i] == links[i] {
      QuietPairs(links[i], input.pairs, input.now);
    }
    QuietCoLinks(input.pairs, input.now);
    assert Reinforced(id, links, input) == links;
  }

  lemma {:induction false} QuietCoLinks(pairs: seq<CoPair>, now: int)
    requires forall p :: p in pairs ==> !Qualifies(p)
    ensures CoLinks(pairs, now) == []
  {
    if pairs != [] {
      QuietCoLinks(pairs[..|pairs| - 1], now);
      assert pairs[|pairs| - 1] in pairs;
    }
  }

  /** A quiet cycle only decays; what decay leaves is never archived as weak. */
  lemma QuietCycle(id: Id, links: seq<Link>, input: CycleInput, curve: Curve)
    requires Quiet(input) && |links| <= DEGREE_LIMIT
    ensures CycleLinks(id, links, input, curve) == DecayLinks(links, input.now, curve)
  {
    QuietStages(id, links, input);
    DecayedRetained(links, input.now, curve);
    DecayMembers(links, input.now, curve);
    OnlyOverflowGoes(DecayLinks(links, input.now, curve));
  }

  /** The factors by which successive cycles decay a link that is not activated in between. */
  function Factors(l: Link, inputs: seq<CycleInput>, curve: Curve): (r: seq<real>)
    ensures |r| == |inputs|
  {
    seq(|inputs|, i requires 0 <= i < |inputs| => Factor(l, inputs[i].now, curve))
  }

  /** What becomes of one link, counting from its last activation. */
  function Survivor(l: Link, inputs: seq<CycleInput>, curve: Curve): Option<Link> {
    DecayRun(l, Factors(l, inputs, curve))
  }

  /** Every link replaced or dropped on its own, in order. */
  function FilterMap(links: seq<Link>, f: Link -> Option<Link>): (r: seq<Link>)
    ensures |r| <= |links|
  {
    if links == [] then []
    else
      var o := f(links[|links| - 1]);
      FilterMap(links[..|links| - 1], f) + if o.Some? then [o.value] else []
  }

  function Then(o: Option<Link>, g: Link -> Option<Link>): Option<Link> {
    if o.Some? then g(o.value) else None
  }

  lemma {:induction false} FilterMapTwice(links: seq<Link>, f: Link -> Option<Link>, g: Link -> Option<Link>,
                                          h: Link -> Option<Link>)
    requires forall l :: h(l) == Then(f(l), g)
    ensures FilterMap(FilterMap(links, f), g) == FilterMap(links, h)
  {
    if links != [] {
      var init, l := links[..|links| - 1], links[|links| - 1];
      FilterMapTwice(init, f, g, h);
      var before := FilterMap(init, f);
      if f(l).Some? {
        assert (before + [f(l).value])[..|before|] == before;
      } else {
        assert FilterMap(links, f) == before;
      }
    }
  }

  function DecayAt(now: int, curve: Curve): Link -> Option<Link> {
    (l: Link) => DecayBy(l, Factor(l, now, curve))
  }

  function DecayThrough(inputs: seq<CycleInput>, curve: Curve): Link -> Option<Link> {
    (l: Link) => Survivor(l, inputs, curve)
  }

  /** Every link decayed on its own through all the cycles, in order. */
  function Survivors(links: seq<Link>, inputs: seq<CycleInput>, curve: Curve): (r: seq<Link>) {
    FilterMap(links, DecayThrough(inputs, curve))
  }

  lemma {:induction false} DecayIsMap(links: seq<Link>, now: int, curve: Curve)
    ensures DecayLinks(links, now, curve) == FilterMap(links, DecayAt(now, curve))
  {
    if links != [] {
      DecayIsMap(links[..|links| - 1], now, curve);
    }
  }

  lemma SurvivorStep(l: Link, inputs: seq<CycleInput>, curve: Curve)
    requires inputs != []
    ensures var last := |inputs| - 1;
            Survivor(l, inputs, curve) == Then(Survivor(l, inputs[..last], curve), DecayAt(inputs[last].now, curve))
  {
    var earlier := inputs[..|inputs| - 1];
    assert Factors(l, inputs, curve)[..|inputs| - 1] == Factors(l, earlier, curve);
    DecayRunKeepsRest(l, Factors(l, earlier, curve));
  }

  lemma SurvivorsStep(links: seq<Link>, inputs: seq<CycleInput>, curve: Curve)
    requires inputs != []
    ensures var last := |inputs| - 1;
            DecayLinks(Survivors(links, inputs[..last], curve), inputs[last].now, curve) ==
              Survivors(links, inputs, curve)
  {
    var earlier, now := inputs[..|inputs| - 1], inputs[|inputs| - 1].now;
    var f, g, h := DecayThrough(earlier, curve), DecayAt(now, curve), DecayThrough(inputs, curve);
    forall l: Link ensures h(l) == Then(f(l), g) {
      SurvivorStep(l, inputs, curve);
    }
    FilterMapTwice(links, f, g, h);
    DecayIsMap(FilterMap(links, f), now, curve);
  }

  lemma {:induction false} SurvivorsAtFirst(links: seq<Link>, curve: Curve)
    ensures Survivors(links, [], curve) == links
  {
    if links != [] {
      SurvivorsAtFirst(links[..|links| - 1], curve);
      assert Factors(links[|links| - 1], [], curve) == [];
    }
  }

  lemma {:induction false} FittingCyclesDecay(id: Id, links: seq<Link>, inputs: seq<CycleInput>, curve: Curve)
    requires |links| <= DEGREE_LIMIT && forall input :: input in inputs ==> Quiet(input)
    ensures RunCycles(id, links, inputs, curve) == Survivors(links, inputs, curve)
  {
    if inputs == [] {
      SurvivorsAtFirst(links, curve);
    } else {
      var init, last := inputs[..|inputs| - 1], inputs[|inputs| - 1];
      FittingCyclesDecay(id, links, init, curve);
      QuietCycle(id, Survivors(links, init, curve), last, curve);
      SurvivorsStep(links, inputs, curve);
    }
  }

  lemma {:induction false} CyclesAfterFirst(id: Id, links: seq<Link>, inputs: seq<CycleInput>, curve: Curve)
    requires inputs != []
    ensures RunCycles(id, links, inputs, curve) ==
            RunCycles(id, CycleLinks(id, links, inputs[0], curve), inputs[1..], curve)
  {
    var n, rest := |inputs| - 1, inputs[1..];
    if n > 0 {
      assert inputs[..n][1..] == rest[..n - 1] && rest[n - 1] == inputs[n];
      CyclesAfterFirst(id, links, inputs[..n], curve);
    }
  }

  /**
   Any number of quiet cycles decays every link on its own by its factors at the cycles' times, all counted from the
   same last activation: no cycle resets it, so the closed forms of `Decay` hold of whole runs. If there are more links
   than the degree limit allows, the first cycle keeps the strongest of those that its decay leaves, and from then on
   just these decay.
   */
  lemma QuietCyclesDecay(id: Id, links: seq<Link>, inputs: seq<CycleInput>, curve: Curve)
    requires forall input :: input in inputs ==> Quiet(input)
    ensures |links| <= DEGREE_LIMIT ==> RunCycles(id, links, inputs, curve) == Survivors(links, inputs, curve)
    ensures inputs != [] ==>
              RunCycles(id, links, inputs, curve) ==
              Survivors(Kept(DecayLinks(links, inputs[0].now, curve), DEGREE_LIMIT), inputs[1..], curve)
  {
    if |links| <= DEGREE_LIMIT {
      FittingCyclesDecay(id, links, inputs, curve);
    }
    if inputs != [] {
      QuietStages(id, links, inputs[0]);
      CompactionConserves(DecayLinks(links, inputs[0].now, curve), DEGREE_LIMIT);
      CyclesAfterFirst(id, links, inputs, curve);
      FittingCyclesDecay(id, CycleLinks(id, links, inputs[0], curve), inputs[1..], curve);
    }
  }

  /** An earlier quiet cycle leaves its mark on a later one unless it did nothing or the link comes to rest anyway. */
  lemma QuietCyclesCompound(id: Id, l: Link, first: CycleInput, second: CycleInput, curve: Curve)
    requires Quiet(first) && Quiet(second) && IsCurve(curve) && 0.0 <= l.strength <= 1.0
    ensures RunCycles(id, [l], [first, second], curve) == RunCycles(id, [l], [second], curve) <==>
            Factor(l, first.now, curve) == 1.0 || AtRest(l, Scale(l.strength, Factor(l, second.now, curve)))
  {
    QuietCyclesOf(id, l, [first, second], curve);
    QuietCyclesOf(id, l, [second], curve);
    assert Factors(l, [first, second], curve) == [Factor(l, first.now, curve), Factor(l, second.now, curve)];
    assert Factors(l, [second], curve) == [Factor(l, second.now, curve)];
    DecayCompounds(l, first.now, second.now, curve);
  }

  lemma QuietCyclesOf(id: Id, l: Link, inputs: seq<CycleInput>, curve: Curve)
    requires forall input :: input in inputs ==> Quiet(input)
    ensures RunCycles(id, [l], inputs, curve) ==
            match DecayRun(l, Factors(l, inputs, curve)) case Some(d) => [d] case None => []
  {
    FittingCyclesDecay(id, [l], inputs, curve);
    OneSurvivor(l, inputs, curve);
  }

  lemma OneSurvivor(l: Link, inputs: seq<CycleInput>, curve: Curve)
    ensures Survivors([l], inputs, curve) == match Survivor(l, inputs, curve) case Some(d) => [d] case None => []
  {
    assert [l][..0] == [];
  }

  // ----- cycles that reject -----

  /** Nothing reaches the co-activation threshold, and one end of the link was rejected. */
  predicate Rejecting(input: CycleInput, id: Id, target: Id) {
    (forall p :: p in input.pairs ==> !Qualifies(p)) && (id in input.rejected || target in input.rejected)
  }

  lemma RejectedStages(id: Id, l: Link, input: CycleInput, curve: Curve)
    requires Rejecting(input, id, l.target)
    ensures Weakened(id, [l], input) == [Weaken(l, input.now)]
    ensures var w := Weaken(l, input.now);
            Decayed(id, [l], input, curve) ==
            match DecayBy(w, Factor(w, input.now, curve)) case Some(d) => [d] case None => []
  {
    QuietPairs(l, input.pairs, input.now);
    QuietCoLinks(input.pairs, input.now);
    assert ReinforceAll([l], input.pairs, input.now) == [l];
    assert Reinforced(id, [l], input) == [l];
    var w := Weaken(l, input.now);
    assert [w][..0] == [] && DecayLinks([], input.now, curve) == [];
  }

  lemma KeepsOne(d: Link)
    requires d.strength >= 0.12
    ensures Kept([d], DEGREE_LIMIT) == [d]
  {
    FilterAll([d], Retain);
  }

  /** A rejection that moves a link sets its time, so that the same cycle does not decay it. */
  lemma RejectingCycle(id: Id, l: Link, input: CycleInput, curve: Curve)
    requires Rejecting(input, id, l.target) && IsCurve(curve) && 0.12 + F32_EPSILON < l.strength <= 1.0
    ensures CycleLinks(id, [l], input, curve) == [Weaken(l, input.now)]
  {
    RejectedStages(id, l, input, curve);
    var w := Weaken(l, input.now);
    assert Factor(w, input.now, curve) == 1.0 && Scale(w.strength, 1.0) == w.strength;
    assert DecayBy(w, 1.0) == Some(w);
    KeepsOne(w);
  }

  /** A confirmed link at the floor stays there, whether it decays or not. */
  lemma RejectedAtFloor(id: Id, l: Link, input: CycleInput, curve: Curve) returns (d: Link)
    requires Rejecting(input, id, l.target) && IsCurve(curve) && l.observation.Confirmed?
    requires 0.12 <= l.strength <= 0.12 + F32_EPSILON
    ensures CycleLinks(id, [l], input, curve) == [d]
    ensures d == l.(strength := d.strength) && 0.12 <= d.strength <= l.strength
  {
    RejectedStages(id, l, input, curve);
    var f := Factor(l, input.now, curve);
    ScaleDown(l.strength, f);
    d := DecayBy(l, f).value;
    KeepsOne(d);
  }

  function CycleTimes(inputs: seq<CycleInput>): (nows: seq<int>)
    ensures |nows| == |inputs|
  {
    seq(|inputs|, i requires 0 <= i < |inputs| => inputs[i].now)
  }

  ghost predicate Moving(s: real, n: nat) {
    s <= 1.0 && (n == 0 || s - 0.08 * (n - 1) as real > 0.12 + F32_EPSILON)
  }

  lemma MovingBefore(s: real, n: nat)
    requires Moving(s, n + 1)
    ensures Moving(s, n) && 0.12 + F32_EPSILON < AfterRejections(s, n) <= 1.0
  {
    if n > 0 {
      assert n as real == (n - 1) as real + 1.0;
    }
  }

  lemma {:induction false} MovingIsRejecting(id: Id, l: Link, inputs: seq<CycleInput>, curve: Curve)
    requires IsCurve(curve) && (forall input :: input in inputs ==> Rejecting(input, id, l.target))
    requires Moving(l.strength, |inputs|)
    ensures RunCycles(id, [l], inputs, curve) == [Rejections(l, CycleTimes(inputs))]
    ensures SameEdge(Rejections(l, CycleTimes(inputs)), l)
  {
    if inputs != [] {
      var n := |inputs| - 1;
      var earlier, last := inputs[..n], inputs[n];
      MovingBefore(l.strength, n);
      MovingIsRejecting(id, l, earlier, curve);
      MovedSoFar(l, CycleTimes(earlier));
      RejectionsPush(l, CycleTimes(earlier), last.now);
      assert CycleTimes(inputs) == CycleTimes(earlier) + [last.now];
      RejectingCycle(id, Rejections(l, CycleTimes(earlier)), last, curve);
    }
  }

  lemma MovedSoFar(l: Link, nows: seq<int>)
    requires Moving(l.strength, |nows|)
    ensures Rejections(l, nows).strength == if nows == [] then l.strength else AfterRejections(l.strength, |nows|)
  {
    if nows != [] {
      MovingRejections(l, nows);
    }
  }

  lemma RejectionsPush(l: Link, nows: seq<int>, now: int)
    ensures Rejections(l, nows + [now]) == Weaken(Rejections(l, nows), now)
  {
    assert (nows + [now])[..|nows|] == nows;
  }

  /** While every rejection moves the link, n rejecting cycles take off 0.08 n and n activations, and nothing decays. */
  lemma MovingCycles(id: Id, l: Link, inputs: seq<CycleInput>, curve: Curve)
    requires IsCurve(curve) && (forall input :: input in inputs ==> Rejecting(input, id, l.target))
    requires inputs != [] && l.strength <= 1.0 && l.strength - 0.08 * (|inputs| - 1) as real > 0.12 + F32_EPSILON
    ensures RunCycles(id, [l], inputs, curve) ==
            [l.(strength := Max(0.12, l.strength - 0.08 * |inputs| as real),
                lastActivatedAt := Some(inputs[|inputs| - 1].now),
                activationCount := if l.activationCount > |inputs| then l.activationCount - |inputs| else 0)]
  {
    MovingIsRejecting(id, l, inputs, curve);
    MovingClosed(l, inputs);
  }

  lemma MovingClosed(l: Link, inputs: seq<CycleInput>)
    requires inputs != [] && l.strength <= 1.0 && l.strength - 0.08 * (|inputs| - 1) as real > 0.12 + F32_EPSILON
    ensures Rejections(l, CycleTimes(inputs)) ==
            l.(strength := Max(0.12, l.strength - 0.08 * |inputs| as real),
               lastActivatedAt := Some(inputs[|inputs| - 1].now),
               activationCount := if l.activationCount > |inputs| then l.activationCount - |inputs| else 0)
  {
    MovingRejections(l, CycleTimes(inputs));
  }

  /**
   Any number of rejecting cycles takes a confirmed link down by 0.08 each and no further than 0.12, up to the float
   tolerance, and exactly if no step stops within the tolerance above the floor.
   */
  lemma {:induction false} RejectingCycles(id: Id, l: Link, inputs: seq<CycleInput>, curve: Curve) returns (d: Link)
    requires IsCurve(curve) && (forall input :: input in inputs ==> Rejecting(input, id, l.target))
    requires l.observation.Confirmed? && 0.12 <= l.strength <= 1.0
    ensures RunCycles(id, [l], inputs, curve) == [d] && SameEdge(d, l) && d.observation == l.observation
    ensures var s := Max(0.12, l.strength - 0.08 * |inputs| as real);
            s <= d.strength <= s + F32_EPSILON && (MissesTolerance(l.strength, |inputs|) ==> d.strength == s)
  {
    if inputs == [] {
      d := l;
    } else {
      var n := |inputs| - 1;
      var earlier, last := inputs[..n], inputs[n];
      assert (n + 1) as real == n as real + 1.0;
      var c := RejectingCycles(id, l, earlier, curve);
      if c.strength > 0.12 + F32_EPSILON {
        RejectingCycle(id, c, last, curve);
        d := Weaken(c, last.now);
      } else {
        d := RejectedAtFloor(id, c, last, curve);
      }
      assert MissesTolerance(l.strength, n + 1) ==> MissesTolerance(l.strength, n) && !StuckAt(l.strength, n);
    }
  }

  // ----- the cycle as it runs: four passes over the units in place -----

  function ActiveCount(links: seq<Link>): nat {
    if links == [] then 0
    else ActiveCount(links[..|links| - 1]) + (if links[|links| - 1].activationCount > 0 then 1 else 0)
  }

  /** Links with a positive activation count after reinforcement, plus the links created. */
  function AppliedTo(u: MemoryUnit, input: CycleInput): nat {
    AddLinksShape(u.id, ReinforceAll(u.links, input.pairs, input.now), CoLinks(input.pairs, input.now));
    ActiveCount(ReinforceAll(u.links, input.pairs, input.now)) + |Reinforced(u.id, u.links, input)| - |u.links|
  }

  function DecayedFrom(u: MemoryUnit, input: CycleInput, curve: Curve): nat {
    DecayMembers(Weakened(u.id, u.links, input), input.now, curve);
    |Weakened(u.id, u.links, input)| - |Decayed(u.id, u.links, input, curve)|
  }

  function Total(units: seq<MemoryUnit>, count: MemoryUnit -> nat): nat {
    if units == [] then 0 else Total(units[..|units| - 1], count) + count(units[|units| - 1])
  }

  function Applied(input: CycleInput): MemoryUnit -> nat {
    (u: MemoryUnit) => AppliedTo(u, input)
  }

  function Rejected(input: CycleInput): MemoryUnit -> nat {
    (u: MemoryUnit) => WeakenedCount(u.id, Reinforced(u.id, u.links, input), input.rejected, input.now)
  }

  function Lost(input: CycleInput, curve: Curve): MemoryUnit -> nat {
    (u: MemoryUnit) => DecayedFrom(u, input, curve)
  }

  function Cut(input: CycleInput, curve: Curve): MemoryUnit -> nat {
    (u: MemoryUnit) => Overflow(|Decayed(u.id, u.links, input, curve)|)
  }

  ghost predicate ScoresInRange(units: seq<MemoryUnit>) {
    forall i :: 0 <= i < |units| ==> StrengthsInRange(units[i].links)
  }

  /** Units below `i` have passed the stage, the others have not. */
  ghost predicate Passed(units: seq<MemoryUnit>, was: seq<MemoryUnit>, i: nat, before: MemoryUnit -> seq<Link>,
                         after: MemoryUnit -> seq<Link>) {
    |units| == |was| && forall j :: 0 <= j < |units| ==>
      units[j] == was[j].(links := if j < i then after(was[j]) else before(was[j]))
  }

  ghost function Stage0(): MemoryUnit -> seq<Link> {
    (u: MemoryUnit) => u.links
  }

  ghost function Stage1(input: CycleInput): MemoryUnit -> seq<Link> {
    (u: MemoryUnit) => Reinforced(u.id, u.links, input)
  }

  ghost function Stage2(input: CycleInput): MemoryUnit -> seq<Link> {
    (u: MemoryUnit) => Weakened(u.id, u.links, input)
  }

  ghost function Stage3(input: CycleInput, curve: Curve): MemoryUnit -> seq<Link> {
    (u: MemoryUnit) => Decayed(u.id, u.links, input, curve)
  }

  ghost function Stage4(input: CycleInput, curve: Curve): MemoryUnit -> seq<Link> {
    (u: MemoryUnit) => CycleLinks(u.id, u.links, input, curve)
  }

  // ----- what a cycle adds and what it takes -----

  function LinkCount(): MemoryUnit -> nat {
    (u: MemoryUnit) => |u.links|
  }

  /** The links that co-activation adds to a unit. */
  function CreatedFor(u: MemoryUnit, input: CycleInput): nat {
    AddLinksShape(u.id, ReinforceAll(u.links, input.pairs, input.now), CoLinks(input.pairs, input.now));
    |Reinforced(u.id, u.links, input)| - |u.links|
  }

  function Created(input: CycleInput): MemoryUnit -> nat {
    (u: MemoryUnit) => CreatedFor(u, input)
  }

  /** The links of a unit that have been activated, now or before. */
  ghost function ActiveAfter(input: CycleInput): MemoryUnit -> nat {
    (u: MemoryUnit) =>
      |set i: nat | i < |u.links| && ReinforceAll(u.links, input.pairs, input.now)[i].activationCount > 0|
  }

  lemma {:induction false} ActiveCountIsSize(links: seq<Link>)
    ensures ActiveCount(links) == |set i: nat | i < |links| && links[i].activationCount > 0|
  {
    if links != [] {
      var n := |links| - 1;
      ActiveCountIsSize(links[..n]);
      var before := set i: nat | i < n && links[..n][i].activationCount > 0;
      var all := set i: nat | i < |links| && links[i].activationCount > 0;
      assert all == if links[n].activationCount > 0 then before + {n} else before;
    }
  }

  /** Every link that was there or is created stays, decays away or is archived. */
  lemma CycleConserves(units: seq<MemoryUnit>, input: CycleInput, curve: Curve)
    requires ScoresInRange(units)
    ensures Total(CycleUnits(units, input, curve), LinkCount()) + Total(units, Lost(input, curve))
            + Total(units, Cut(input, curve)) == Total(units, LinkCount()) + Total(units, Created(input))
    ensures Total(units, Applied(input)) == Total(units, Created(input)) + Total(units, ActiveAfter(input))
  {
    var left := (u: MemoryUnit) => |CycleLinks(u.id, u.links, input, curve)|;
    forall u | u in units
      ensures Balances(u, left, Lost(input, curve), Cut(input, curve), LinkCount(), Created(input)) {
      var i :| 0 <= i < |units| && units[i] == u;
      UnitConserves(u, input, curve);
    }
    TotalsBalance(units, left, Lost(input, curve), Cut(input, curve), LinkCount(), Created(input));
    TotalAfter(units, CycleUnits(units, input, curve), left);
    forall u | u in units ensures Applied(input)(u) == Created(input)(u) + ActiveAfter(input)(u) {
      ActiveCountIsSize(ReinforceAll(u.links, input.pairs, input.now));
    }
    TotalsAdd(units, Applied(input), Created(input), ActiveAfter(input));
  }

  lemma UnitConserves(u: MemoryUnit, input: CycleInput, curve: Curve)
    requires StrengthsInRange(u.links)
    ensures |CycleLinks(u.id, u.links, input, curve)| + Lost(input, curve)(u) + Cut(input, curve)(u) ==
            |u.links| + Created(input)(u)
  {
    ArchivesExactlyOverflow(u.id, u.links, input, curve);
    DecayMembers(Weakened(u.id, u.links, input), input.now, curve);
  }

  /** What is left, lost and cut of a unit is what it had and what was created. */
  ghost predicate Balances(u: MemoryUnit, left: MemoryUnit -> nat, lost: MemoryUnit -> nat, gone: MemoryUnit -> nat,
                           had: MemoryUnit -> nat, created: MemoryUnit -> nat) {
    left(u) + lost(u) + gone(u) == had(u) + created(u)
  }

  lemma {:induction false} TotalsBalance(units: seq<MemoryUnit>, left: MemoryUnit -> nat, lost: MemoryUnit -> nat,
                                         gone: MemoryUnit -> nat, had: MemoryUnit -> nat, created: MemoryUnit -> nat)
    requires forall u :: u in units ==> Balances(u, left, lost, gone, had, created)
    ensures Total(units, left) + Total(units, lost) + Total(units, gone) == Total(units, had) + Total(units, created)
  {
    if units != [] {
      assert Balances(units[|units| - 1], left, lost, gone, had, created);
      TotalsBalance(units[..|units| - 1], left, lost, gone, had, created);
    }
  }

  lemma {:induction false} TotalsAdd(units: seq<MemoryUnit>, f: MemoryUnit -> nat, g: MemoryUnit -> nat,
                                     h: MemoryUnit -> nat)
    requires forall u :: u in units ==> f(u) == g(u) + h(u)
    ensures Total(units, f) == Total(units, g) + Total(units, h)
  {
    if units != [] {
      TotalsAdd(units[..|units| - 1], f, g, h);
    }
  }

  lemma {:induction false} TotalAfter(units: seq<MemoryUnit>, after: seq<MemoryUnit>, left: MemoryUnit -> nat)
    requires |after| == |units| && forall i :: 0 <= i < |units| ==> |after[i].links| == left(units[i])
    ensures Total(after, LinkCount()) == Total(units, left)
  {
    if units != [] {
      TotalAfter(units[..|units| - 1], after[..|units| - 1], left);
    }
  }

  /** Of the links that decay leaves up to 64 stay, and none that is weak. */
  ghost predicate KeepsStrongEnough(was: MemoryUnit, links: seq<Link>, input: CycleInput, curve: Curve) {
    var left := |Decayed(was.id, was.links, input, curve)|;
    |links| == (if left > 64 then 64 else left) && forall l :: l in links ==> !Weak(l)
  }

  lemma CycleWithinLimit(u: MemoryUnit, input: CycleInput, curve: Curve)
    requires StrengthsInRange(u.links)
    ensures KeepsStrongEnough(u, CycleLinks(u.id, u.links, input, curve), input, curve)
  {
    ArchivesExactlyOverflow(u.id, u.links, input, curve);
    OverflowOnly(Decayed(u.id, u.links, input, curve), DEGREE_LIMIT);
  }

  class ConsolidationWorker {
    var cycleCount: nat

    constructor ()
      ensures cycleCount == 0
    {
      cycleCount := 0;
    }

    method RunCycle(units: array<MemoryUnit>, input: CycleInput, curve: Curve) returns (stats: CycleStats)
      requires ScoresInRange(units[..])
      modifies units, this
      ensures units[..] == CycleUnits(old(units[..]), input, curve)
      ensures cycleCount == old(cycleCount) + 1
      ensures stats.hebbianApplied == Total(old(units[..]), Applied(input)) + Total(old(units[..]), Rejected(input))
      ensures stats.edgesDecayed == Total(old(units[..]), Lost(input, curve))
      ensures stats.edgesArchived == Total(old(units[..]), Cut(input, curve))
      ensures Total(units[..], LinkCount()) + stats.edgesDecayed + stats.edgesArchived ==
              Total(old(units[..]), LinkCount()) + Total(old(units[..]), Created(input))
      ensures stats.hebbianApplied ==
              Total(old(units[..]), Created(input)) + Total(old(units[..]), ActiveAfter(input))
              + Total(old(units[..]), Rejected(input))
      ensures forall i :: 0 <= i < units.Length ==>
                KeepsStrongEnough(old(units[..])[i], units[i].links, input, curve)
    {
      ghost var was := units[..];
      var applied := ReinforcePass(units, input);
      var weakened := 0;
      if input.rejected != [] {
        weakened := WeakenPass(units, input, was);
      } else {
        NoRejections(was, input);
      }
      var decayed := DecayPass(units, input, curve, was);
      var archived := CompactPass(units, input, curve, was);
      cycleCount := cycleCount + 1;
      stats := CycleStats(applied + weakened, decayed, archived);
      CycleConserves(was, input, curve);
      forall i | 0 <= i < units.Length ensures KeepsStrongEnough(was[i], units[i].links, input, curve) {
        assert units[i] == CycleUnits(was, input, curve)[i] == CycleUnit(was[i], input, curve);
        CycleWithinLimit(was[i], input, curve);
      }
    }
  }

  method ReinforcePass(units: array<MemoryUnit>, input: CycleInput) returns (applied: nat)
    modifies units
    ensures Passed(units[..], old(units[..]), units.Length, Stage0(), Stage1(input))
    ensures applied == Total(old(units[..]), Applied(input))
  {
    ghost var was := units[..];
    applied := 0;
    for i := 0 to units.Length
      invariant Passed(units[..], was, i, Stage0(), Stage1(input))
      invariant applied == Total(was[..i], Applied(input))
    {
      var u := units[i];
      assert units[..][i] == was[i].(links := Stage0()(was[i]));
      assert was[..i + 1][..i] == was[..i];
      var reinforced := HebbianReinforce(u.links, input.pairs, input.now);
      var changed := CountActive(reinforced);
      var news := BuildCoactivationLinks(input.pairs, input.now);
      var links := AddCoactivationLinks(u.id, reinforced, news);
      AddLinksShape(u.id, reinforced, news);
      applied := applied + changed + |links| - |u.links|;
      units[i] := u.(links := links);
    }
    assert was[..units.Length] == was;
  }

  method CountActive(links: seq<Link>) returns (n: nat)
    ensures n == ActiveCount(links)
  {
    n := 0;
    for i := 0 to |links|
      invariant n == ActiveCount(links[..i])
    {
      assert links[..i + 1][..i] == links[..i];
      if links[i].activationCount > 0 {
        n := n + 1;
      }
    }
    assert links[..|links|] == links;
  }

  method WeakenPass(units: array<MemoryUnit>, input: CycleInput, ghost was: seq<MemoryUnit>) returns (weakened: nat)
    requires ScoresInRange(was) && Passed(units[..], was, units.Length, Stage0(), Stage1(input))
    modifies units
    ensures Passed(units[..], was, units.Length, Stage1(input), Stage2(input))
    ensures weakened == Total(was, Rejected(input))
  {
    weakened := 0;
    for i := 0 to units.Length
      invariant Passed(units[..], was, i, Stage1(input), Stage2(input))
      invariant weakened == Total(was[..i], Rejected(input))
    {
      var u := units[i];
      assert units[..][i] == was[i].(links := Stage1(input)(was[i]));
      assert was[..i + 1][..i] == was[..i];
      ReinforcedInRange(was[i].id, was[i].links, input);
      var links, n := RejectWeaken(u.id, u.links, input.rejected, input.now);
      weakened := weakened + n;
      units[i] := u.(links := links);
    }
    assert was[..units.Length] == was;
  }

  method DecayPass(units: array<MemoryUnit>, input: CycleInput, curve: Curve, ghost was: seq<MemoryUnit>)
    returns (decayed: nat)
    requires Passed(units[..], was, units.Length, Stage1(input), Stage2(input))
    modifies units
    ensures Passed(units[..], was, units.Length, Stage2(input), Stage3(input, curve))
    ensures decayed == Total(was, Lost(input, curve))
  {
    decayed := 0;
    for i := 0 to units.Length
      invariant Passed(units[..], was, i, Stage2(input), Stage3(input, curve))
      invariant decayed == Total(was[..i], Lost(input, curve))
    {
      var u := units[i];
      assert units[..][i] == was[i].(links := Stage2(input)(was[i]));
      assert was[..i + 1][..i] == was[..i];
      var links := ApplyDecay(u.links, input.now, curve);
      DecayMembers(u.links, input.now, curve);
      if |links| < |u.links| {
        decayed := decayed + |u.links| - |links|;
      }
      units[i] := u.(links := links);
    }
    assert was[..units.Length] == was;
  }

  /** `after` and `count` are what compaction keeps and cuts of `before`. */
  ghost predicate Compacts(was: seq<MemoryUnit>, before: MemoryUnit -> seq<Link>, after: MemoryUnit -> seq<Link>,
                           count: MemoryUnit -> nat) {
    forall u :: u in was ==>
      after(u) == Kept(before(u), DEGREE_LIMIT) && count(u) == |ArchivedLinks(before(u), DEGREE_LIMIT)|
  }

  method CompactEach(units: array<MemoryUnit>, ghost was: seq<MemoryUnit>, ghost before: MemoryUnit -> seq<Link>,
                     ghost after: MemoryUnit -> seq<Link>, ghost count: MemoryUnit -> nat)
    returns (archived: nat)
    requires Passed(units[..], was, 0, before, after) && Compacts(was, before, after, count)
    modifies units
    ensures Passed(units[..], was, units.Length, before, after)
    ensures archived == Total(was, count)
  {
    archived := 0;
    for i := 0 to units.Length
      invariant Passed(units[..], was, i, before, after)
      invariant archived == Total(was[..i], count)
    {
      var u := units[i];
      assert units[..][i] == was[i].(links := before(was[i])) && was[i] in was;
      assert was[..i + 1][..i] == was[..i];
      var kept, gone := CompactEdges(u.links, DEGREE_LIMIT);
      archived := archived + |gone|;
      units[i] := u.(links := kept);
    }
    assert was[..units.Length] == was;
  }

  lemma CyclesCompact(was: seq<MemoryUnit>, input: CycleInput, curve: Curve)
    requires ScoresInRange(was)
    ensures Compacts(was, Stage3(input, curve), Stage4(input, curve), Cut(input, curve))
  {
    forall u | u in was
      ensures |ArchivedLinks(Decayed(u.id, u.links, input, curve), DEGREE_LIMIT)| ==
              Overflow(|Decayed(u.id, u.links, input, curve)|)
    {
      var i :| 0 <= i < |was| && was[i] == u;
      ArchivesExactlyOverflow(u.id, u.links, input, curve);
    }
  }

  method CompactPass(units: array<MemoryUnit>, input: CycleInput, curve: Curve, ghost was: seq<MemoryUnit>)
    returns (archived: nat)
    requires ScoresInRange(was) && Passed(units[..], was, units.Length, Stage2(input), Stage3(input, curve))
    modifies units
    ensures units[..] == CycleUnits(was, input, curve)
    ensures archived == Total(was, Cut(input, curve))
  {
    CyclesCompact(was, input, curve);
    archived := CompactEach(units, was, Stage3(input, curve), Stage4(input, curve), Cut(input, curve));
    assert units[..] == CycleUnits(was, input, curve);
  }

  /** Without rejections the second pass would change nothing and count nothing. */
  lemma {:induction false} NoRejections(was: seq<MemoryUnit>, input: CycleInput)
    requires input.rejected == []
    ensures Total(was, Rejected(input)) == 0
    ensures forall u: MemoryUnit :: Weakened(u.id, u.links, input) == Reinforced(u.id, u.links, input)
  {
    forall u: MemoryUnit ensures Weakened(u.id, u.links, input) == Reinforced(u.id, u.links, input) {
    }
    if was != [] {
      var u := was[|was| - 1];
      NoRejections(was[..|was| - 1], input);
      NoneWeakened(u.id, Reinforced(u.id, u.links, input), input.now);
    }
  }

  lemma {:induction false} NoneWeakened(id: Id, links: seq<Link>, now: int)
    ensures WeakenedCount(id, links, [], now) == 0
  {
    if links != [] {
      NoneWeakened(id, links[..|links| - 1], now);
    }
  }
}
