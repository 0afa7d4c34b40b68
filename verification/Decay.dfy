/** The forgetting curve (`hippmem-consolidation/src/decay.rs`, default parameters). */
module Decay {
  import opened MemoryModel

  const MAX_DOUBLINGS := 6

  /** 0.5^(inactive / half-life), as a function of the inactive milliseconds and the number of doublings. */
  type Curve = (nat, nat) -> real

  ghost predicate IsCurve(curve: Curve) {
    && (forall ms: nat, n: nat :: 0.0 < curve(ms, n) <= 1.0)
    && (forall n: nat :: curve(0, n) == 1.0)
  }

  function Factor(l: Link, now: int, curve: Curve): real {
    var last := match l.lastActivatedAt case Some(t) => t case None => l.formedAt;
    var inactive := if now - last >= 0 then now - last else 0;
    curve(inactive, if l.activationCount < MAX_DOUBLINGS then l.activationCount else MAX_DOUBLINGS)
  }

  /** One decay of one link by `factor`; None when a link under observation falls below the floor. */
  function DecayBy(l: Link, factor: real): Option<Link> {
    if Protected(l) then Some(l)
    else
      var raw := Scale(l.strength, factor);
      if l.observation.Observing? && raw < MIN_RETAINED then None
      else Some(l.(strength := UnitScore(Max(raw, MIN_RETAINED))))
  }

  function DecayLinks(links: seq<Link>, now: int, curve: Curve): seq<Link> {
    if links == [] then []
    else
      var l := links[|links| - 1];
      DecayLinks(links[..|links| - 1], now, curve) +
      match DecayBy(l, Factor(l, now, curve)) case Some(d) => [d] case None => []
  }

  method ApplyDecay(links: seq<Link>, now: int, curve: Curve) returns (kept: seq<Link>)
    ensures kept == DecayLinks(links, now, curve)
    ensures StrengthsInRange(links) && IsCurve(curve) ==>
              forall d :: d in kept <==> exists l :: l in links && DecaysTo(l, d, now, curve)
  {
    kept := [];
    for i := 0 to |links|
      invariant kept == DecayLinks(links[..i], now, curve)
    {
      assert links[..i + 1][..i] == links[..i];
      match DecayBy(links[i], Factor(links[i], now, curve)) {
        case Some(d) => kept := kept + [d];
        case None =>
      }
    }
    assert links[..|links|] == links;
    DecayMembers(links, now, curve);
    if StrengthsInRange(links) && IsCurve(curve) {
      forall l, d | l in links ensures DecayBy(l, Factor(l, now, curve)) == Some(d) <==> DecaysTo(l, d, now, curve) {
        DecayExactly(l, d, now, curve);
      }
    }
  }

  /**
   `d` is what is left of `l`: the curve is taken at the time since the last activation, or since the link was formed,
   and at no more than six activations. Confirmed links of the four protected types do not decay; other links are
   scaled, and held at 0.12 when confirmed; below 0.12 a link under observation is lost.
   */
  ghost predicate DecaysTo(l: Link, d: Link, now: int, curve: Curve) {
    var since := if l.lastActivatedAt.Some? then l.lastActivatedAt.value else l.formedAt;
    var factor := curve(if now > since then now - since else 0, if l.activationCount > 6 then 6 else l.activationCount);
    if l.observation == Confirmed && l.kind in {Causal, Correction, Contradiction, Supersedes} then d == l
    else if l.observation == Confirmed && Scale(l.strength, factor) < 0.12 then d == l.(strength := 0.12)
    else Scale(l.strength, factor) >= 0.12 && d == l.(strength := Scale(l.strength, factor))
  }

  lemma DecayExactly(l: Link, d: Link, now: int, curve: Curve)
    requires 0.0 <= l.strength <= 1.0 && IsCurve(curve)
    ensures DecayBy(l, Factor(l, now, curve)) == Some(d) <==> DecaysTo(l, d, now, curve)
  {
    ScaleDown(l.strength, Factor(l, now, curve));
  }

  /** The result holds exactly the decayed forms of the links that are not dropped. */
  lemma {:induction false} DecayMembers(links: seq<Link>, now: int, curve: Curve)
    ensures |DecayLinks(links, now, curve)| <= |links|
    ensures forall d :: d in DecayLinks(links, now, curve) <==>
              exists l :: l in links && DecayBy(l, Factor(l, now, curve)) == Some(d)
  {
    var r := DecayLinks(links, now, curve);
    if links != [] {
      var init, l := links[..|links| - 1], links[|links| - 1];
      DecayMembers(init, now, curve);
      assert links == init + [l];
      forall d ensures d in r <==> exists x :: x in links && DecayBy(x, Factor(x, now, curve)) == Some(d) {
        if DecayBy(l, Factor(l, now, curve)) == Some(d) {
          assert l in links;
        }
      }
    }
  }

  lemma {:induction false} DecayUnique(links: seq<Link>, now: int, curve: Curve)
    requires UniqueLinks(links)
    ensures UniqueLinks(DecayLinks(links, now, curve))
  {
    if links != [] {
      var init, l := links[..|links| - 1], links[|links| - 1];
      DecayUnique(init, now, curve);
      DecayMembers(init, now, curve);
      var r := DecayLinks(init, now, curve);
      forall i | 0 <= i < |r| ensures !SameEdge(r[i], l) {
        assert r[i] in r;
        var x :| x in init && DecayBy(x, Factor(x, now, curve)) == Some(r[i]);
        DecaySameEdge(x, Factor(x, now, curve));
        var k :| 0 <= k < |init| && init[k] == x;
        assert !SameEdge(links[k], links[|links| - 1]);
      }
      DecaySameEdge(l, Factor(l, now, curve));
    }
  }

  lemma DecaySameEdge(l: Link, factor: real)
    ensures DecayBy(l, factor).Some? ==> SameEdge(DecayBy(l, factor).value, l)
  {
  }

  // ----- many decays -----

  /** Successive decays of one link without any activation in between. */
  function DecayRun(l: Link, factors: seq<real>): Option<Link> {
    if factors == [] then Some(l)
    else
      match DecayRun(l, factors[..|factors| - 1])
      case None => None
      case Some(d) => DecayBy(d, factors[|factors| - 1])
  }

  /** Decay changes nothing but the strength; above all it leaves the activation time and count. */
  lemma {:induction false} DecayRunKeepsRest(l: Link, factors: seq<real>)
    ensures DecayRun(l, factors).Some? ==>
            DecayRun(l, factors).value == l.(strength := DecayRun(l, factors).value.strength)
  {
    if factors != [] {
      DecayRunKeepsRest(l, factors[..|factors| - 1]);
    }
  }

  function Product(factors: seq<real>): real {
    if factors == [] then 1.0 else Scale(Product(factors[..|factors| - 1]), factors[|factors| - 1])
  }

  predicate AreFactors(factors: seq<real>) {
    forall i :: 0 <= i < |factors| ==> 0.0 < factors[i] <= 1.0
  }

  lemma {:induction false} ProductInRange(factors: seq<real>)
    requires AreFactors(factors)
    ensures 0.0 < Product(factors) <= 1.0
  {
    if factors != [] {
      var p, f := Product(factors[..|factors| - 1]), factors[|factors| - 1];
      ProductInRange(factors[..|factors| - 1]);
      ScaleDown(p, f);
    }
  }

  lemma ScaleDown(x: real, f: real)
    requires 0.0 <= x && 0.0 < f <= 1.0
    ensures 0.0 <= Scale(x, f) <= x && (x > 0.0 ==> Scale(x, f) > 0.0)
    ensures Scale(x, 1.0) == x == Scale(1.0, x)
    ensures Scale(x, f) == x ==> f == 1.0 || x == 0.0
  {
    assert x * (1.0 - f) >= 0.0 && x * (1.0 - f) == x - x * f;
    if f < 1.0 && x > 0.0 {
      assert x * (1.0 - f) > 0.0;
    }
  }

  lemma Associate(s: real, p: real, f: real)
    requires 0.0 <= s <= 1.0 && 0.0 < p <= 1.0 && 0.0 < f <= 1.0
    ensures Scale(s, Scale(p, f)) == Scale(Scale(s, p), f)
    ensures 0.0 <= Scale(Scale(s, p), f) <= Scale(s, p) <= 1.0
  {
    assert s * (p * f) == s * p * f;
    ScaleDown(s, p);
    ScaleDown(Scale(s, p), f);
  }

  lemma ConfirmedStep(l: Link, x: real, f: real)
    requires l.observation.Confirmed? && !Protected(l) && 0.0 <= Scale(x, f) <= 1.0
    ensures DecayBy(l.(strength := x), f) == Some(l.(strength := Max(MIN_RETAINED, Scale(x, f))))
  {
  }

  lemma ObservingStep(l: Link, x: real, f: real)
    requires l.observation.Observing? && 0.0 <= Scale(x, f) <= 1.0
    ensures DecayBy(l.(strength := x), f) ==
            if Scale(x, f) < MIN_RETAINED then None else Some(l.(strength := Scale(x, f)))
  {
  }

  /** k decays multiply: a confirmed link ends at max(floor, s d1...dk) and is never lost. */
  lemma {:induction false} ConfirmedDecayClosedForm(l: Link, factors: seq<real>)
    requires l.observation.Confirmed? && !Protected(l) && 0.0 <= l.strength <= 1.0
    requires AreFactors(factors) && factors != []
    ensures DecayRun(l, factors) == Some(l.(strength := Max(MIN_RETAINED, Scale(l.strength, Product(factors)))))
  {
    var init, f := factors[..|factors| - 1], factors[|factors| - 1];
    ProductInRange(init);
    Associate(l.strength, Product(init), f);
    var x := Scale(l.strength, Product(init));
    if init == [] {
      assert x == l.strength && l == l.(strength := x);
      ConfirmedStep(l, x, f);
    } else {
      ConfirmedDecayClosedForm(l, init);
      FloorThenScale(x, f);
      ConfirmedStep(l, Max(MIN_RETAINED, x), f);
    }
  }

  lemma FloorThenScale(x: real, f: real)
    requires 0.0 <= x <= 1.0 && 0.0 < f <= 1.0
    ensures Max(MIN_RETAINED, Scale(Max(MIN_RETAINED, x), f)) == Max(MIN_RETAINED, Scale(x, f))
    ensures 0.0 <= Scale(Max(MIN_RETAINED, x), f) <= 1.0
  {
    ScaleDown(x, f);
    ScaleDown(MIN_RETAINED, f);
  }

  /**
   A link under observation is gone after k decays exactly when s d1...dk is below the floor; until then it is that
   product.
   */
  lemma {:induction false} ObservingDecayClosedForm(l: Link, factors: seq<real>)
    requires l.observation.Observing? && 0.0 <= l.strength <= 1.0
    requires AreFactors(factors) && factors != []
    ensures DecayRun(l, factors) ==
            if Scale(l.strength, Product(factors)) < MIN_RETAINED then None
            else Some(l.(strength := Scale(l.strength, Product(factors))))
  {
    var init, f := factors[..|factors| - 1], factors[|factors| - 1];
    ProductInRange(init);
    Associate(l.strength, Product(init), f);
    var x := Scale(l.strength, Product(init));
    ObservingStep(l, x, f);
    if init == [] {
      assert x == l.strength && l == l.(strength := x);
    } else {
      ObservingDecayClosedForm(l, init);
    }
  }

  /** An earlier decay makes no difference: the link is protected, or this one takes it to the floor or away. */
  predicate AtRest(l: Link, decayed: real) {
    Protected(l) || if l.observation.Observing? then decayed < MIN_RETAINED else decayed <= MIN_RETAINED
  }

  /**
   Decay does not reset the activation time, so a second cycle forgets the first interval again:
   two cycles agree with one at the later time only if the earlier one did nothing or the later one alone brings the
   link to rest.
   */
  lemma DecayCompounds(l: Link, earlier: int, later: int, curve: Curve)
    requires 0.0 <= l.strength <= 1.0 && IsCurve(curve)
    ensures var d1, d2 := Factor(l, earlier, curve), Factor(l, later, curve);
            DecayRun(l, [d1, d2]) == DecayRun(l, [d2]) <==> d1 == 1.0 || AtRest(l, Scale(l.strength, d2))
  {
    var d1, d2 := Factor(l, earlier, curve), Factor(l, later, curve);
    var x := Scale(l.strength, d2);
    TwoFactors(l, d1, d2);
    if !Protected(l) {
      ProductOfTwo(d1, d2);
      Associate(l.strength, d2, d1);
      ScaleDown(x, d1);
      if l.observation.Confirmed? {
        ConfirmedDecayClosedForm(l, [d1, d2]);
        ConfirmedDecayClosedForm(l, [d2]);
        CompoundAlgebra(x, d1);
      } else {
        ObservingDecayClosedForm(l, [d1, d2]);
        ObservingDecayClosedForm(l, [d2]);
      }
    }
  }

  lemma TwoFactors(l: Link, d1: real, d2: real)
    ensures Protected(l) ==> DecayRun(l, [d1, d2]) == DecayRun(l, [d2]) == Some(l)
  {
    assert [d1, d2][..1] == [d1] && [d1][..0] == [] && [d2][..0] == [];
    assert DecayRun(l, []) == Some(l);
    if Protected(l) {
      assert DecayRun(l, [d1]) == Some(l);
    }
  }

  lemma ProductOfTwo(d1: real, d2: real)
    ensures Product([d2]) == d2 && Product([d1, d2]) == Scale(d2, d1)
  {
    assert [d1, d2][..1] == [d1] && [d1][..0] == [] && [d2][..0] == [];
  }

  lemma CompoundAlgebra(x: real, d: real)
    requires 0.0 <= x && 0.0 < d <= 1.0
    ensures Max(MIN_RETAINED, Scale(x, d)) == Max(MIN_RETAINED, x) <==> d == 1.0 || x <= MIN_RETAINED
  {
    ScaleDown(x, d);
  }
}
