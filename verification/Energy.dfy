/** How much energy a link passes on and how two paths combine (`energy.rs`, `merge_energy`). */
module Energy {
  import opened MemoryModel
  import opened Sorting

  /**
   `threshold` is `min_propagation_energy`, `mergeWeight` is `merge_secondary_weight`,
   `queryMatch` and `importanceWeight` are the seed coefficients `a` and `c`.
   */
  datatype Params = Params(
    queryMatch: real, importanceWeight: real, cap: real, decay: real, threshold: real, fanOut: nat, mergeWeight: real,
    maxHops: nat)

  function Power(x: real, n: nat): real {
    if n == 0 then 1.0 else x * Power(x, n - 1)
  }

  /** Powers add up, so over two hops the decay counts twice. */
  lemma {:induction false} PowerLaws(x: real, m: nat, n: nat)
    ensures Power(x, 0) == 1.0 && Power(x, 1) == x
    ensures Power(x, m + n) == Power(x, m) * Power(x, n)
  {
    if m > 0 {
      PowerLaws(x, m - 1, n);
      var a, b := Power(x, m - 1), Power(x, n);
      assert x * (a * b) == (x * a) * b;
    }
  }

  function TypeModifier(kind: LinkType): real {
    match kind
    case Causal => 1.30
    case Correction => 1.20
    case Supersedes => 1.15
    case SameGoal => 1.10
    case SameEvent => 1.10
    case CoActivation => 1.05
    case EntityOverlap => 1.00
    case Elaboration => 1.00
    case SemanticSimilar => 0.90
    case TopicRelated => 0.85
    case EmotionalResonance => 0.70
    case TemporalAdjacent => 0.60
    case Contradiction => 0.50
    case Deprecates => 0.40
  }

  function Propagated(source: real, l: Link, hop: nat, p: Params): real {
    UnitScore(source * l.strength * l.confidence * Power(p.decay, hop) * TypeModifier(l.kind))
  }

  /**
   A link passes on the energy of its source times strength, confidence, the decay once for each hop and the factor of
   the link's type, kept within [0, 1].
   */
  ghost predicate Passes(energy: real, source: real, l: Link, hop: nat, p: Params) {
    exists factor :: OfType(factor, l.kind)
      && var full := source * l.strength * l.confidence * Power(p.decay, hop) * factor;
         energy == if full < 0.0 then 0.0 else if full > 1.0 then 1.0 else full
  }

  /** What a type passes on, relative to an entity overlap. */
  ghost predicate OfType(factor: real, kind: LinkType) {
    match kind
    case Causal => factor == 1.30
    case Correction => factor == 1.20
    case Supersedes => factor == 1.15
    case SameGoal => factor == 1.10
    case SameEvent => factor == 1.10
    case CoActivation => factor == 1.05
    case EntityOverlap => factor == 1.0
    case Elaboration => factor == 1.0
    case SemanticSimilar => factor == 0.90
    case TopicRelated => factor == 0.85
    case EmotionalResonance => factor == 0.70
    case TemporalAdjacent => factor == 0.60
    case Contradiction => factor == 0.50
    case Deprecates => factor == 0.40
  }

  lemma PropagatedPasses(source: real, l: Link, hop: nat, p: Params)
    ensures Passes(Propagated(source, l, hop, p), source, l, hop, p)
  {
    assert OfType(TypeModifier(l.kind), l.kind);
  }

  function Merge(existing: real, new_: real, p: Params): real {
    Max(existing, new_) + Scale(p.mergeWeight, Min(existing, new_))
  }

  function Weight(l: Link): real {
    l.strength * l.confidence
  }

  predicate Heavier(a: Link, b: Link) {
    Weight(a) > Weight(b)
  }

  /** The strongest `fanOut` links of a node, strongest first. */
  function TopLinks(links: map<Id, seq<Link>>, id: Id, p: Params): seq<Link> {
    var sorted := Sort(if id in links then links[id] else [], Heavier);
    if |sorted| <= p.fanOut then sorted else sorted[..p.fanOut]
  }

  lemma PrefixHeaviest(sorted: seq<Link>, n: nat)
    requires n <= |sorted| && Ordered(sorted, Heavier)
    ensures forall t, l :: t in sorted[..n] && l in sorted[n..] ==> Weight(l) <= Weight(t)
  {
    forall t, l | t in sorted[..n] && l in sorted[n..] ensures !Heavier(l, t) {
      var i :| 0 <= i < n && sorted[i] == t;
      var j :| n <= j < |sorted| && sorted[j] == l;
    }
  }

  /** Fan-out pruning takes real links, as many as allowed, and leaves none heavier than one it takes. */
  lemma TopLinksAreHeaviest(links: map<Id, seq<Link>>, id: Id, p: Params) returns (rest: seq<Link>)
    requires id in links
    ensures multiset(TopLinks(links, id, p)) + multiset(rest) == multiset(links[id])
    ensures |TopLinks(links, id, p)| == p.fanOut || rest == []
    ensures |TopLinks(links, id, p)| <= p.fanOut
    ensures forall t, l :: t in TopLinks(links, id, p) && l in rest ==>
              l.strength * l.confidence <= t.strength * t.confidence
  {
    var sorted := Sort(links[id], Heavier);
    SortPermutes(links[id], Heavier);
    SortOrdered(links[id], Heavier);
    var n := if |sorted| <= p.fanOut then |sorted| else p.fanOut;
    rest := sorted[n..];
    assert sorted == sorted[..n] + rest;
    assert TopLinks(links, id, p) == sorted[..n];
    PrefixHeaviest(sorted, n);
  }

  lemma TopLinkIsReal(links: map<Id, seq<Link>>, id: Id, p: Params, l: Link)
    requires l in TopLinks(links, id, p)
    ensures id in links && l in links[id]
  {
    if id in links {
      SortPermutes(links[id], Heavier);
    }
  }

  // ----- merging -----

  /** Merging is associative at the extremes of the weight only, so the order of arrivals shows. */
  lemma MergeAssociatesExactly(p: Params)
    ensures (forall a, b, c :: 0.0 <= a && 0.0 <= b && 0.0 <= c ==>
             Merge(Merge(a, b, p), c, p) == Merge(a, Merge(b, c, p), p))
            <==> p.mergeWeight == 0.0 || p.mergeWeight == 1.0
  {
    var w := p.mergeWeight;
    if w != 0.0 && w != 1.0 {
      // merging 1, 1 and 1 + w differs by the grouping unless w is 0 or 1
      MergeGrouping(p);
    }
  }

  lemma MergeGrouping(p: Params)
    requires p.mergeWeight != 0.0 && p.mergeWeight != 1.0
    ensures exists a, b, c ::
            0.0 <= a && 0.0 <= b && 0.0 <= c && Merge(Merge(a, b, p), c, p) != Merge(a, Merge(b, c, p), p)
  {
    var w := p.mergeWeight;
    var x := if w >= 0.0 then 2.0 + w else 2.0 - w;
    var left, right := Merge(Merge(1.0, 1.0, p), x, p), Merge(1.0, Merge(1.0, x, p), p);
    MergeOrdered(1.0, 1.0, p);
    MergeOrdered(1.0, x, p);
    MergeOrdered(1.0, x + w, p);
    MergeOrdered(1.0 + w, x, p);
    assert left == x + w * (1.0 + w) == x + w + w * w;
    assert right == x + w + w;
    assert w * (w - 1.0) != 0.0;
    assert w * (w - 1.0) == w * w - w;
  }

  lemma MergeOrdered(a: real, b: real, p: Params)
    requires a <= b
    ensures Merge(a, b, p) == b + p.mergeWeight * a
  {}

  /**
   The merge weights under which no merge of two energies at the threshold falls below it: above zero the weight must
   not be negative, at zero it may take off as much as the smaller energy, and below zero it must not add a negative
   energy either.
   */
  predicate KeepingWeight(w: real, threshold: real) {
    if threshold > 0.0 then w >= 0.0
    else if threshold == 0.0 then w >= -1.0
    else -1.0 <= w <= 0.0
  }

  lemma MergeKeepsThresholdExactly(p: Params)
    ensures (forall a, b :: a >= p.threshold && b >= p.threshold ==> Merge(a, b, p) >= p.threshold) <==>
            KeepingWeight(p.mergeWeight, p.threshold)
  {
    if KeepingWeight(p.mergeWeight, p.threshold) {
      forall a, b | a >= p.threshold && b >= p.threshold ensures Merge(a, b, p) >= p.threshold {
        KeptByMerge(p.mergeWeight, p.threshold, Min(a, b), Max(a, b));
      }
    } else {
      var x := LostByMerge(p.mergeWeight, p.threshold);
      assert Merge(x, x, p) < p.threshold;
    }
  }

  lemma KeptByMerge(w: real, threshold: real, low: real, high: real)
    requires KeepingWeight(w, threshold) && threshold <= low <= high
    ensures high + w * low >= threshold
  {
    if w >= 0.0 && low >= 0.0 {
      NonNegativeProduct(w, low);
    } else if low >= 0.0 {
      NonNegativeProduct(w + 1.0, low);
      assert (w + 1.0) * low == w * low + low;
    } else {
      NonNegativeProduct(-w, -low);
      assert (-w) * (-low) == w * low;
    }
  }

  /** Two equal energies that such a weight takes below the threshold. */
  lemma LostByMerge(w: real, threshold: real) returns (x: real)
    requires !KeepingWeight(w, threshold)
    ensures x >= threshold && x + w * x < threshold
  {
    if threshold > 0.0 {
      x := threshold;
      PositiveProduct(-w, threshold);
    } else if w > 0.0 {
      x := threshold;
      PositiveProduct(w, -threshold);
    } else {
      x := LostByFar(-1.0 - w, threshold);
    }
  }

  /** With a weight below -1 a large enough energy loses more than itself. */
  lemma LostByFar(excess: real, threshold: real) returns (x: real)
    requires excess > 0.0 && threshold <= 0.0
    ensures x >= threshold && x + (-1.0 - excess) * x < threshold
  {
    x := (1.0 - threshold) / excess;
    assert x * excess == 1.0 - threshold;
    assert x + (-1.0 - excess) * x == -(x * excess);
    assert x > 0.0;
  }

  lemma PositiveProduct(x: real, y: real)
    requires x > 0.0 && y > 0.0
    ensures x * y > 0.0
  {}

  lemma NonNegativeProduct(x: real, y: real)
    requires x >= 0.0 && y >= 0.0
    ensures x * y >= 0.0
  {}

  /** A merge is at least the larger energy, and at most the sum while the weight is at most one. */
  lemma MergeBounds(a: real, b: real, p: Params)
    requires a >= 0.0 && b >= 0.0 && p.mergeWeight >= 0.0
    ensures Merge(a, b, p) >= Max(a, b)
    ensures p.mergeWeight <= 1.0 ==> Merge(a, b, p) <= a + b
  {
    var w, m := p.mergeWeight, Min(a, b);
    NonNegativeProduct(w, m);
    if w <= 1.0 {
      NonNegativeProduct(1.0 - w, m);
      assert (1.0 - w) * m == m - w * m;
    }
  }
}
