/** Reinforcement, rejection and co-activation links (`hippmem-consolidation/src/hebbian.rs`, default parameters). */
module Hebbian {
  import opened MemoryModel
  import opened Sorting
  import opened Sums
  import opened ActivationLogs

  const LEARNING_RATE := 0.08
  const COACTIVATION_THRESHOLD := 3.0
  const STRENGTH_MAX := 1.0
  const F32_EPSILON := 0.00000011920928955078125

  predicate Qualifies(p: CoPair) {
    p.weight >= COACTIVATION_THRESHOLD
  }

  predicate Matches(target: Id, p: CoPair) {
    Qualifies(p) && (target == p.a || target == p.b)
  }

  function Delta(p: CoPair): real {
    LEARNING_RATE * Min(p.weight, 5.0)
  }

  // ----- reinforcement -----

  function ReinforceOne(l: Link, p: CoPair, now: int): Link {
    if Matches(l.target, p) then
      l.(strength := UnitScore(Min(l.strength + Delta(p), STRENGTH_MAX)),
         lastActivatedAt := Some(now), activationCount := l.activationCount + 1)
    else l
  }

  /** The inner loop over the pairs, in order. */
  function ReinforceLink(l: Link, pairs: seq<CoPair>, now: int): Link {
    if pairs == [] then l
    else ReinforceOne(ReinforceLink(l, pairs[..|pairs| - 1], now), pairs[|pairs| - 1], now)
  }

  function ReinforceAll(links: seq<Link>, pairs: seq<CoPair>, now: int): (r: seq<Link>)
    ensures |r| == |links|
  {
    seq(|links|, i requires 0 <= i < |links| => ReinforceLink(links[i], pairs, now))
  }

  method HebbianReinforce(links: seq<Link>, pairs: seq<CoPair>, now: int) returns (updated: seq<Link>)
    ensures updated == ReinforceAll(links, pairs, now)
    ensures StrengthsInRange(links) ==> forall i :: 0 <= i < |links| ==> ReinforcedBy(links[i], updated[i], pairs, now)
  {
    updated := links;
    for i := 0 to |links|
      invariant |updated| == |links|
      invariant forall j :: 0 <= j < i ==> updated[j] == ReinforceLink(links[j], pairs, now)
      invariant forall j :: i <= j < |links| ==> updated[j] == links[j]
    {
      for k := 0 to |pairs|
        invariant |updated| == |links|
        invariant forall j :: 0 <= j < |links| && j != i ==>
                    updated[j] == if j < i then ReinforceLink(links[j], pairs, now) else links[j]
        invariant updated[i] == ReinforceLink(links[i], pairs[..k], now)
      {
        assert pairs[..k + 1][..k] == pairs[..k];
        updated := updated[i := ReinforceOne(updated[i], pairs[k], now)];
      }
      assert pairs[..|pairs|] == pairs;
    }
    if StrengthsInRange(links) {
      forall i | 0 <= i < |links| ensures ReinforcedBy(links[i], updated[i], pairs, now) {
        assert links[i] in links;
        ReinforcedExactly(links[i], pairs, now);
      }
    }
  }

  /** The pair names the target and weighs three or more. */
  ghost predicate Reaches(p: CoPair, target: Id) {
    p.weight >= 3.0 && (p.a == target || p.b == target)
  }

  /** It adds 0.08 for each unit of its weight, up to five. */
  ghost function GainFor(target: Id): CoPair -> real {
    (p: CoPair) => if Reaches(p, target) then 0.08 * (if p.weight > 5.0 then 5.0 else p.weight) else 0.0
  }

  ghost function Reaching(pairs: seq<CoPair>, target: Id): set<nat> {
    set k: nat | k < |pairs| && Reaches(pairs[k], target)
  }

  /** Every pair that reaches the link strengthens it, up to 1, and counts as one activation at this time. */
  ghost predicate ReinforcedBy(l: Link, r: Link, pairs: seq<CoPair>, now: int) {
    var total := l.strength + Sum(pairs, GainFor(l.target));
    r == l.(strength := if total > 1.0 then 1.0 else total,
            activationCount := l.activationCount + |Reaching(pairs, l.target)|,
            lastActivatedAt := if Reaching(pairs, l.target) != {} then Some(now) else l.lastActivatedAt)
  }

  lemma {:induction false} GainIsDelta(pairs: seq<CoPair>, target: Id)
    ensures Sum(pairs, GainFor(target)) == TotalDelta(target, pairs)
  {
    if pairs != [] {
      GainIsDelta(pairs[1..], target);
      assert GainFor(target)(pairs[0]) == DeltaFor(target)(pairs[0]);
    }
  }

  lemma {:induction false} ReachingIsMatching(pairs: seq<CoPair>, target: Id)
    ensures |Reaching(pairs, target)| == MatchCount(target, pairs)
  {
    if pairs != [] {
      var n := |pairs| - 1;
      ReachingIsMatching(pairs[..n], target);
      ReachingPush(pairs[..n], pairs[n], target);
      assert pairs == pairs[..n] + [pairs[n]];
    }
  }

  lemma ReachingPush(pairs: seq<CoPair>, p: CoPair, target: Id)
    ensures |Reaching(pairs + [p], target)| == |Reaching(pairs, target)| + if Reaches(p, target) then 1 else 0
  {
    var n, before := |pairs|, Reaching(pairs, target);
    assert Reaching(pairs + [p], target) == if Reaches(p, target) then before + {n} else before;
  }

  lemma ReinforcedExactly(l: Link, pairs: seq<CoPair>, now: int)
    requires 0.0 <= l.strength <= 1.0
    ensures ReinforcedBy(l, ReinforceLink(l, pairs, now), pairs, now)
  {
    ReinforceClosedForm(l, pairs, now);
    GainIsDelta(pairs, l.target);
    ReachingIsMatching(pairs, l.target);
  }

  function DeltaFor(target: Id): CoPair -> real {
    p => if Matches(target, p) then Delta(p) else 0.0
  }

  function MatchFor(target: Id): CoPair -> real {
    p => if Matches(target, p) then 1.0 else 0.0
  }

  /** The total a link to `target` gains before capping. */
  function TotalDelta(target: Id, pairs: seq<CoPair>): real {
    Sum(pairs, DeltaFor(target))
  }

  function MatchCount(target: Id, pairs: seq<CoPair>): nat {
    if pairs == [] then 0
    else MatchCount(target, pairs[..|pairs| - 1]) + (if Matches(target, pairs[|pairs| - 1]) then 1 else 0)
  }

  lemma {:induction false} MatchCountIsSum(target: Id, pairs: seq<CoPair>)
    ensures MatchCount(target, pairs) as real == Sum(pairs, MatchFor(target))
  {
    if pairs != [] {
      var init, last := pairs[..|pairs| - 1], pairs[|pairs| - 1];
      MatchCountIsSum(target, init);
      assert pairs == init + [last];
      SumConcat(init, [last], MatchFor(target));
      assert [last][1..] == [];
    }
  }

  /** Reinforcement adds up all matching deltas and caps once, whatever the number of pairs. */
  lemma {:induction false} ReinforceClosedForm(l: Link, pairs: seq<CoPair>, now: int)
    requires 0.0 <= l.strength <= STRENGTH_MAX
    ensures TotalDelta(l.target, pairs) >= 0.24 * MatchCount(l.target, pairs) as real
    ensures ReinforceLink(l, pairs, now) ==
            l.(strength := Min(STRENGTH_MAX, l.strength + TotalDelta(l.target, pairs)),
               activationCount := l.activationCount + MatchCount(l.target, pairs),
               lastActivatedAt := if MatchCount(l.target, pairs) > 0 then Some(now) else l.lastActivatedAt)
  {
    if pairs != [] {
      var init, last := pairs[..|pairs| - 1], pairs[|pairs| - 1];
      ReinforceClosedForm(l, init, now);
      assert pairs == init + [last];
      SumConcat(init, [last], DeltaFor(l.target));
      assert [last][1..] == [];
      assert Qualifies(last) ==> Delta(last) >= 0.24;
    }
  }

  /** Over the reals the pair order does not matter, although each step caps. */
  lemma ReinforceOrderFree(l: Link, pairs: seq<CoPair>, other: seq<CoPair>, now: int)
    requires 0.0 <= l.strength <= STRENGTH_MAX && multiset(pairs) == multiset(other)
    ensures ReinforceLink(l, pairs, now) == ReinforceLink(l, other, now)
  {
    ReinforceClosedForm(l, pairs, now);
    ReinforceClosedForm(l, other, now);
    SumPermutes(pairs, other, DeltaFor(l.target));
    SumPermutes(pairs, other, MatchFor(l.target));
    MatchCountIsSum(l.target, pairs);
    MatchCountIsSum(l.target, other);
  }

  // ----- rejection -----

  predicate Rejects(owner: Id, l: Link, rejected: seq<Id>) {
    owner in rejected || l.target in rejected
  }

  function Weaken(l: Link, now: int): Link {
    var s := Max(l.strength - LEARNING_RATE, MIN_RETAINED);
    if Max(s - l.strength, l.strength - s) > F32_EPSILON then
      l.(strength := UnitScore(s), lastActivatedAt := Some(now),
         activationCount := if l.activationCount > 0 then l.activationCount - 1 else 0)
    else l
  }

  function WeakenIfRejected(owner: Id, l: Link, rejected: seq<Id>, now: int): Link {
    if Rejects(owner, l, rejected) then Weaken(l, now) else l
  }

  function WeakenAll(owner: Id, links: seq<Link>, rejected: seq<Id>, now: int): (r: seq<Link>)
    ensures |r| == |links|
  {
    seq(|links|, i requires 0 <= i < |links| => WeakenIfRejected(owner, links[i], rejected, now))
  }

  function WeakenedCount(owner: Id, links: seq<Link>, rejected: seq<Id>, now: int): nat {
    if links == [] then 0
    else
      var l := links[|links| - 1];
      WeakenedCount(owner, links[..|links| - 1], rejected, now) +
      (if WeakenIfRejected(owner, l, rejected, now).strength != l.strength then 1 else 0)
  }

  method RejectWeaken(owner: Id, links: seq<Link>, rejected: seq<Id>, now: int)
    returns (updated: seq<Link>, weakened: nat)
    requires StrengthsInRange(links)
    ensures updated == WeakenAll(owner, links, rejected, now)
    ensures weakened == WeakenedCount(owner, links, rejected, now)
    ensures |updated| == |links| && forall i :: 0 <= i < |links| ==>
              RejectionOf(links[i], updated[i], owner in rejected || links[i].target in rejected, now)
    ensures weakened == |set i: nat | i < |links| && updated[i] != links[i]|
  {
    updated, weakened := links, 0;
    for i := 0 to |links|
      invariant |updated| == |links|
      invariant forall j :: 0 <= j < |links| ==>
                  updated[j] == if j < i then WeakenIfRejected(owner, links[j], rejected, now) else links[j]
      invariant weakened == WeakenedCount(owner, links[..i], rejected, now)
    {
      assert links[..i + 1][..i] == links[..i];
      var l := links[i];
      assert l in links;
      if Rejects(owner, l, rejected) {
        var s := Max(l.strength - LEARNING_RATE, MIN_RETAINED);
        if Max(s - l.strength, l.strength - s) > F32_EPSILON {
          updated := updated[i := Weaken(l, now)];
          weakened := weakened + 1;
        }
      }
    }
    assert links[..|links|] == links;
    forall i | 0 <= i < |links|
      ensures RejectionOf(links[i], updated[i], owner in rejected || links[i].target in rejected, now)
    {
      assert links[i] in links;
      RejectionExactly(owner, links[i], rejected, now);
    }
    CountsChanged(owner, links, rejected, now);
  }

  /**
   What a rejection makes of a link: it takes off 0.08 down to 0.12, sets the time and takes back one activation; within
   the float tolerance of 0.12 nothing changes, and from below the link is lifted to 0.12.
   */
  ghost predicate RejectionOf(l: Link, r: Link, reached: bool, now: int) {
    var tolerance := 0.00000011920928955078125;
    var moved := l.(lastActivatedAt := Some(now),
                    activationCount := if l.activationCount > 0 then l.activationCount - 1 else 0);
    if !reached || -tolerance <= l.strength - 0.12 <= tolerance then r == l
    else r == moved.(strength := if l.strength >= 0.20 then l.strength - 0.08 else 0.12)
  }

  lemma RejectionExactly(owner: Id, l: Link, rejected: seq<Id>, now: int)
    requires 0.0 <= l.strength <= 1.0
    ensures RejectionOf(l, WeakenIfRejected(owner, l, rejected, now), owner in rejected || l.target in rejected, now)
  {
  }

  /** The positions at which two lists differ. */
  ghost function Changed(a: seq<Link>, b: seq<Link>): set<nat>
    requires |a| == |b|
  {
    set i: nat | i < |a| && a[i] != b[i]
  }

  lemma ChangedPush(a: seq<Link>, b: seq<Link>, x: Link, y: Link)
    requires |a| == |b|
    ensures |Changed(a + [x], b + [y])| == |Changed(a, b)| + if x != y then 1 else 0
  {
    var n := |a|;
    assert Changed(a + [x], b + [y]) == if x != y then Changed(a, b) + {n} else Changed(a, b);
  }

  lemma {:induction false} CountsChanged(owner: Id, links: seq<Link>, rejected: seq<Id>, now: int)
    requires StrengthsInRange(links)
    ensures WeakenedCount(owner, links, rejected, now) == |Changed(WeakenAll(owner, links, rejected, now), links)|
  {
    if links != [] {
      var n := |links| - 1;
      var init, l := links[..n], links[n];
      CountsChanged(owner, init, rejected, now);
      assert l in links && links == init + [l];
      var w, v := WeakenAll(owner, init, rejected, now), WeakenIfRejected(owner, l, rejected, now);
      assert WeakenAll(owner, links, rejected, now) == w + [v];
      ChangedPush(w, init, v, l);
    }
  }

  /** The same link rejected again and again. */
  function Rejections(l: Link, nows: seq<int>): Link {
    if nows == [] then l else Weaken(Rejections(l, nows[..|nows| - 1]), nows[|nows| - 1])
  }

  /** Where n rejections of 0.08 each take a strength, with 0.12 as the floor. */
  function AfterRejections(s: real, n: nat): real {
    Max(0.12, s - 0.08 * n as real)
  }

  /** On the way down the strength does not stop just above the floor, within the tolerance. */
  ghost predicate MissesTolerance(s: real, n: nat) {
    forall k: nat :: k < n ==> !StuckAt(s, k)
  }

  ghost predicate StuckAt(s: real, k: nat) {
    0.12 < s - 0.08 * k as real <= 0.12 + F32_EPSILON
  }

  /**
   n rejections take a strength down by 0.08 n to the floor, up to the tolerance: exactly so if and only if no step on
   the way ends within the tolerance above the floor, where a link gets stuck.
   */
  lemma {:induction false} RejectionsClosedForm(l: Link, nows: seq<int>)
    requires 0.12 <= l.strength <= 1.0
    ensures var r := Rejections(l, nows).strength;
            AfterRejections(l.strength, |nows|) <= r <= AfterRejections(l.strength, |nows|) + F32_EPSILON
    ensures Rejections(l, nows).strength == AfterRejections(l.strength, |nows|) <==> MissesTolerance(l.strength, |nows|)
  {
    if nows != [] {
      var n := |nows| - 1;
      RejectionsClosedForm(l, nows[..n]);
      var x := Rejections(l, nows[..n]).strength;
      assert (n + 1) as real == n as real + 1.0;
      assert MissesTolerance(l.strength, n + 1) <==>
             MissesTolerance(l.strength, n) && !StuckAt(l.strength, n);
    }
  }

  /** As long as every step moves, n rejections also take back n activations, and set the time of the last. */
  lemma {:induction false} MovingRejections(l: Link, nows: seq<int>)
    requires nows != [] && l.strength <= 1.0 && l.strength - 0.08 * (|nows| - 1) as real > 0.12 + F32_EPSILON
    ensures Rejections(l, nows) ==
            l.(strength := AfterRejections(l.strength, |nows|), lastActivatedAt := Some(nows[|nows| - 1]),
               activationCount := if l.activationCount > |nows| then l.activationCount - |nows| else 0)
  {
    var n := |nows| - 1;
    assert (n + 1) as real == n as real + 1.0;
    if n > 0 {
      assert n as real == (n - 1) as real + 1.0;
      MovingRejections(l, nows[..n]);
    } else {
      assert nows[..0] == [];
    }
  }

  /** Rejection never raises a strength, except for an edge already below the floor, which it lifts to it. */
  lemma RejectNeverStrengthens(l: Link, now: int)
    requires 0.0 <= l.strength <= 1.0
    ensures Weaken(l, now).strength <= l.strength <==> l.strength >= MIN_RETAINED - F32_EPSILON
    ensures l.strength >= MIN_RETAINED ==> Weaken(l, now).strength >= MIN_RETAINED
  {
  }

  // ----- new co-activation links -----

  function NewLink(p: CoPair, now: int): Link {
    Link(p.b, Causal, UnitScore(0.3), UnitScore(0.4), Some("co-activated"), now, Some(now),
         (if p.weight >= 0.0 then Min(p.weight, 5.0) else 0.0).Floor, Observing(now))
  }

  function CoLinks(pairs: seq<CoPair>, now: int): seq<(Id, Link)> {
    if pairs == [] then []
    else
      var p := pairs[|pairs| - 1];
      CoLinks(pairs[..|pairs| - 1], now) + (if Qualifies(p) then [(p.a, NewLink(p, now))] else [])
  }

  method BuildCoactivationLinks(pairs: seq<CoPair>, now: int) returns (links: seq<(Id, Link)>)
    ensures links == CoLinks(pairs, now)
    ensures var heavy := Filter(pairs, WeighsThree());
            |links| == |heavy| && forall k :: 0 <= k < |links| ==>
              links[k].0 == heavy[k].a && IsNewLink(links[k].1, heavy[k], now)
  {
    links := [];
    for k := 0 to |pairs|
      invariant links == CoLinks(pairs[..k], now)
    {
      assert pairs[..k + 1][..k] == pairs[..k];
      if pairs[k].weight >= COACTIVATION_THRESHOLD {
        links := links + [(pairs[k].a, NewLink(pairs[k], now))];
      }
    }
    assert pairs[..|pairs|] == pairs;
    CoLinksExactly(pairs, now);
  }

  ghost function WeighsThree(): CoPair -> bool {
    (p: CoPair) => p.weight >= 3.0
  }

  /** A causal link under observation, with moderate scores, as often activated as the pair weighs, up to five. */
  ghost predicate IsNewLink(l: Link, p: CoPair, now: int) {
    && l.target == p.b && l.kind == Causal && l.strength == 0.3 && l.confidence == 0.4 && l.note == Some("co-activated")
    && l.formedAt == now && l.lastActivatedAt == Some(now) && l.observation == Observing(now)
    && l.activationCount == if p.weight < 4.0 then 3 else if p.weight < 5.0 then 4 else 5
  }

  lemma {:induction false} CoLinksExactly(pairs: seq<CoPair>, now: int)
    ensures var links, heavy := CoLinks(pairs, now), Filter(pairs, WeighsThree());
            |links| == |heavy| && forall k :: 0 <= k < |links| ==>
              links[k].0 == heavy[k].a && IsNewLink(links[k].1, heavy[k], now)
  {
    if pairs != [] {
      var n := |pairs| - 1;
      CoLinksExactly(pairs[..n], now);
      FilterLast(pairs, WeighsThree());
      if pairs[n].weight >= 3.0 {
        NewLinkIsNew(pairs[n], now);
      }
    }
  }

  lemma NewLinkIsNew(p: CoPair, now: int)
    requires p.weight >= 3.0
    ensures IsNewLink(NewLink(p, now), p, now)
  {
  }

  /** Pushes the links of `owner` unless an edge with the same target and type is there already. */
  function AddLinks(owner: Id, links: seq<Link>, news: seq<(Id, Link)>): seq<Link> {
    if news == [] then links
    else
      var init, n := AddLinks(owner, links, news[..|news| - 1]), news[|news| - 1];
      if n.0 == owner && !HasEdge(init, n.1.target, n.1.kind) then init + [n.1] else init
  }

  method AddCoactivationLinks(owner: Id, links: seq<Link>, news: seq<(Id, Link)>) returns (updated: seq<Link>)
    ensures updated == AddLinks(owner, links, news)
  {
    updated := links;
    for k := 0 to |news|
      invariant updated == AddLinks(owner, links, news[..k])
    {
      assert news[..k + 1][..k] == news[..k];
      var n := news[k];
      if n.0 == owner && !HasEdge(updated, n.1.target, n.1.kind) {
        updated := updated + [n.1];
      }
    }
    assert news[..|news|] == news;
  }

  ghost predicate IsCoLink(n: (Id, Link), p: CoPair, now: int) {
    Qualifies(p) && n == (p.a, NewLink(p, now))
  }

  lemma {:induction false} CoLinksMembers(pairs: seq<CoPair>, now: int)
    ensures forall n :: n in CoLinks(pairs, now) <==> exists p :: p in pairs && IsCoLink(n, p, now)
  {
    if pairs != [] {
      var init, last := pairs[..|pairs| - 1], pairs[|pairs| - 1];
      CoLinksMembers(init, now);
      assert pairs == init + [last];
      forall n ensures n in CoLinks(pairs, now) <==> exists p :: p in pairs && IsCoLink(n, p, now) {
        if IsCoLink(n, last, now) {
        }
      }
    }
  }

  /**
   Links are only appended, each one a new link of this owner, and every new link of the owner ends up with an edge.
   */
  lemma {:induction false} AddLinksShape(owner: Id, links: seq<Link>, news: seq<(Id, Link)>)
    ensures links <= AddLinks(owner, links, news)
    ensures forall l :: l in AddLinks(owner, links, news) ==> l in links || (owner, l) in news
    ensures forall n :: n in news && n.0 == owner ==> HasEdge(AddLinks(owner, links, news), n.1.target, n.1.kind)
  {
    if news != [] {
      var init, n := news[..|news| - 1], news[|news| - 1];
      AddLinksShape(owner, links, init);
      assert news == init + [n];
      var a, r := AddLinks(owner, links, init), AddLinks(owner, links, news);
      forall m | m in news && m.0 == owner ensures HasEdge(r, m.1.target, m.1.kind) {
        if m in init {
          var l :| l in a && l.target == m.1.target && l.kind == m.1.kind;
          assert l in r;
        } else {
          assert m == n;
          if !HasEdge(a, m.1.target, m.1.kind) {
            assert m.1 in r;
          }
        }
      }
    }
  }

  lemma {:induction false} AddLinksUnique(owner: Id, links: seq<Link>, news: seq<(Id, Link)>)
    requires UniqueLinks(links)
    ensures UniqueLinks(AddLinks(owner, links, news))
  {
    if news != [] {
      AddLinksUnique(owner, links, news[..|news| - 1]);
    }
  }

  lemma {:induction false} NothingToAdd(owner: Id, links: seq<Link>, news: seq<(Id, Link)>)
    requires forall n :: n in news && n.0 == owner ==> HasEdge(links, n.1.target, n.1.kind)
    ensures AddLinks(owner, links, news) == links
  {
    if news != [] {
      NothingToAdd(owner, links, news[..|news| - 1]);
    }
  }

  /** No pair that reaches the threshold pairs the owner with itself. */
  predicate NoSelfPair(owner: Id, pairs: seq<CoPair>) {
    forall p :: p in pairs && Qualifies(p) && p.a == owner ==> p.b != owner
  }

  /** A self-loop appears exactly when some pair of the owner with itself reaches the threshold. */
  lemma SelfLoopExactly(owner: Id, links: seq<Link>, pairs: seq<CoPair>, now: int)
    requires NoSelfLoop(owner, links)
    ensures NoSelfLoop(owner, AddLinks(owner, links, CoLinks(pairs, now))) <==> NoSelfPair(owner, pairs)
  {
    var news := CoLinks(pairs, now);
    var r := AddLinks(owner, links, news);
    AddLinksShape(owner, links, news);
    CoLinksMembers(pairs, now);
    if p :| p in pairs && Qualifies(p) && p.a == owner && p.b == owner {
      assert IsCoLink((owner, NewLink(p, now)), p, now);
      assert HasEdge(r, owner, Causal);
    } else {
      forall l | l in r ensures l.target != owner {
        if l !in links {
          var p :| p in pairs && IsCoLink((owner, l), p, now);
        }
      }
    }
  }

  /** In terms of the activation log: what the id weighs with itself stays below the threshold. */
  lemma SelfPairExactly(owner: Id, pairs: seq<CoPair>, log: seq<Entry>, window: int)
    requires ArePairsOf(pairs, log, window)
    ensures NoSelfPair(owner, pairs) <==> PairWeight(log, window, (owner, owner)) < COACTIVATION_THRESHOLD
  {
    var k: PairKey := (owner, owner);
    if PairWeight(log, window, k) >= COACTIVATION_THRESHOLD {
      if !Coactivated(log, window, k) {
        QuietWeight(log, |log|, window, k);
      }
      assert HasPair(pairs, k);
      var p :| p in pairs && (p.a, p.b) == k;
      assert Qualifies(p);
    }
  }

  /**
   One record of distinct ids gives each of them a link to itself exactly when (n-1)(n-2)/2 times its weight reaches
   the threshold.
   */
  lemma RecordSelfLoopsExactly(ids: seq<Id>, at: int, w: real, window: int, owner: Id, links: seq<Link>,
                               pairs: seq<CoPair>, now: int)
    requires Distinct(ids) && owner in ids && window > 0
    requires ArePairsOf(pairs, RecordLog(ids, at, w), window)
    requires NoSelfLoop(owner, links)
    ensures NoSelfLoop(owner, AddLinks(owner, links, CoLinks(pairs, now))) <==>
            RecordWeight(w, |ids| - 1, true) < COACTIVATION_THRESHOLD
  {
    SingleRecordWeights(ids, at, w, window, owner, owner);
    SelfPairExactly(owner, pairs, RecordLog(ids, at, w), window);
    SelfLoopExactly(owner, links, pairs, now);
  }

  /** Confirming memories together gives every one of them a link to itself from four memories on, and not below. */
  lemma OneConfirmationMakesSelfLoops(ids: seq<Id>, at: int, window: int, owner: Id, links: seq<Link>,
                                      pairs: seq<CoPair>, now: int)
    requires Distinct(ids) && owner in ids && window > 0
    requires ArePairsOf(pairs, RecordLog(ids, at, 1.0), window)
    requires NoSelfLoop(owner, links)
    ensures NoSelfLoop(owner, AddLinks(owner, links, CoLinks(pairs, now))) <==> |ids| <= 3
  {
    RecordSelfLoopsExactly(ids, at, 1.0, window, owner, links, pairs, now);
    FactorReachesThree(|ids| - 1);
    assert RecordWeight(1.0, |ids| - 1, true) == RecordFactor((|ids| - 1) as real, true);
  }

  lemma FactorReachesThree(m: nat)
    ensures RecordFactor(m as real, true) >= 3.0 <==> m >= 3
  {
    var r := m as real;
    if m >= 3 {
      assert (r - 3.0) * (r - 1.0) >= 0.0 && (r - 3.0) * (r - 1.0) == r * (r - 1.0) - 3.0 * (r - 1.0);
    } else {
      assert r == 0.0 || r == 1.0 || r == 2.0;
      assert RecordFactor(0.0, true) == 0.0 && RecordFactor(1.0, true) == 0.0 && RecordFactor(2.0, true) == 1.0;
    }
  }
}
