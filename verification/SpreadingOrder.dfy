/** In which order spreading returns what it reached: most energy first, and among equals what was reached first. */
module SpreadingOrder {
  import opened MemoryModel
  import opened Sorting
  import opened Energy
  import opened Spreading
  import opened SpreadingRuns

  /** `a` stands in the list before `b`. */
  ghost predicate StandsBefore(s: seq<Activated>, a: Activated, b: Activated) {
    exists i, j :: 0 <= i < j < |s| && s[i] == a && s[j] == b
  }

  /** Each later level lists the nodes it reached by falling energy, and equal energies by rising id. */
  lemma LevelsRanked(wave: nat -> Wave, seeds: seq<Activated>, links: map<Id, seq<Link>>, h: nat, p: Params, i: nat,
                     j: nat)
    requires h > 0 && Spreads(wave, seeds, links, p) && i < j < |wave(h).level|
    ensures var a, b := wave(h).level[i], wave(h).level[j];
            a.energy > b.energy || (a.energy == b.energy && a.id < b.id)
  {
    var arrivals := RoundArrivals(wave, links, h, p);
    LevelOfArrivals(wave, seeds, links, h, p);
    TargetsMembers(arrivals);
    var nodes := Settled(arrivals, Targets(arrivals), h, p);
    SortPermutes(nodes, EnergyThenId);
    NextLevelMembers(arrivals, h, p);
    var x, y := SortedFrom(nodes, i, j, EnergyThenId);
    assert wave(h).level[i].id != wave(h).level[j].id;
  }

  ghost predicate LevelTraces(wave: nat -> Wave, h: nat) {
    forall a :: a in wave(h).level ==> |a.trace| == h + 1
  }

  /** Everything reached is kept level by level, and the length of a trace tells the level. */
  ghost predicate KeepsLevels(wave: nat -> Wave) {
    Extending(wave) && forall h: nat :: LevelTraces(wave, h)
  }

  lemma RunKeepsLevels(wave: nat -> Wave, seeds: seq<Activated>, links: map<Id, seq<Link>>, p: Params)
    requires Spreads(wave, seeds, links, p) && SeedsWellFormed(seeds, p)
    ensures KeepsLevels(wave)
  {
    RunExtends(wave, seeds, links, p);
    forall h: nat ensures LevelTraces(wave, h) {
      forall a | a in wave(h).level ensures |a.trace| == h + 1 {
        TracesArePaths(wave, seeds, links, h, p, a);
      }
    }
  }

  lemma TraceWithin(wave: nat -> Wave, h: nat, a: Activated)
    requires KeepsLevels(wave) && a in wave(h).all
    ensures 0 < |a.trace| <= h + 1
  {
    AllAreLevels(wave, h, a);
    var k: nat :| k <= h && a in wave(k).level;
    assert LevelTraces(wave, k);
  }

  /** What stands earlier was reached earlier, or stands earlier in the same level. */
  lemma {:induction false} AllInOrder(wave: nat -> Wave, h: nat, i: nat, j: nat)
    requires KeepsLevels(wave) && i < j < |wave(h).all|
    ensures var a, b := wave(h).all[i], wave(h).all[j];
            && 0 < |a.trace| <= |b.trace|
            && (|a.trace| == |b.trace| ==> StandsBefore(wave(|a.trace| - 1).level, a, b))
  {
    var all, level := wave(h).all, wave(h).level;
    assert LevelTraces(wave, h);
    TraceWithin(wave, h, all[i]);
    if h > 0 {
      assert ExtendsAt(wave, h - 1);
      var n := |wave(h - 1).all|;
      if j < n {
        AllInOrder(wave, h - 1, i, j);
      } else {
        assert level[j - n] == all[j] && all[j] in level;
        if i >= n {
          assert level[i - n] == all[i];
        } else {
          TraceWithin(wave, h - 1, all[i]);
        }
      }
    }
  }

  /**
   Of two returned nodes the first has more energy; or as much and a shorter trace; or as long a trace and the smaller
   id; or both are seeds, and the first stands before the second among the seeds.
   */
  ghost predicate ReturnedBefore(a: Activated, b: Activated, seeds: seq<Activated>) {
    || a.energy > b.energy
    || (a.energy == b.energy && |a.trace| < |b.trace|)
    || (a.energy == b.energy && |a.trace| == |b.trace| > 1 && a.id < b.id)
    || (a.energy == b.energy && |a.trace| == |b.trace| == 1 && StandsBefore(seeds, a, b))
  }

  lemma RankingOrder(wave: nat -> Wave, seeds: seq<Activated>, links: map<Id, seq<Link>>, h: nat, p: Params, i: nat,
                     j: nat)
    requires Spreads(wave, seeds, links, p) && SeedsWellFormed(seeds, p) && i < j < |Ranking(wave(h))|
    ensures ReturnedBefore(Ranking(wave(h))[i], Ranking(wave(h))[j], seeds)
  {
    var all, r := wave(h).all, Ranking(wave(h));
    SortPermutes(all, MoreEnergy);
    var x, y := SortedFrom(all, i, j, MoreEnergy);
    if r[i].energy == r[j].energy {
      RunKeepsLevels(wave, seeds, links, p);
      AllInOrder(wave, h, x, y);
      var k := |r[i].trace| - 1;
      if |r[i].trace| == |r[j].trace| && k > 0 {
        var a, b :| 0 <= a < b < |wave(k).level| && wave(k).level[a] == r[i] && wave(k).level[b] == r[j];
        LevelsRanked(wave, seeds, links, k, p, a, b);
      }
    }
  }
}
