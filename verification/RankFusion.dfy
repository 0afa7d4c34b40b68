/** Reciprocal rank fusion of seeds (`rrf_fuse` in `hippmem-retrieval/src/seeds.rs`). */
module RankFusion {
  import opened MemoryModel
  import opened Sorting
  import opened Sums
  import opened Seeds

  /** `w / (k + rank)`; a seed without a rank counts as rank 99. */
  function Contribution(s: Seed, k: real, weight: Channel -> real): real
    requires k > 0.0
  {
    weight(s.channel) / (k + (if s.rank.Some? then s.rank.value else 99) as real)
  }

  function Contributions(k: real, weight: Channel -> real): Seed -> real
    requires k > 0.0
  {
    (s: Seed) => Contribution(s, k, weight)
  }

  function RawScore(): Seed -> real {
    (s: Seed) => s.score
  }

  function OfId(id: Id): Seed -> bool {
    (s: Seed) => s.id == id
  }

  /** The sum of all contributions of an id. */
  ghost function FusedScore(seeds: seq<Seed>, id: Id, k: real, weight: Channel -> real): real
    requires k > 0.0
  {
    Sum(Filter(seeds, OfId(id)), Contributions(k, weight))
  }

  /** Index `p` is the first of the id's seeds at which `f` is largest. */
  ghost predicate FirstMax(seeds: seq<Seed>, id: Id, f: Seed -> real, p: nat) {
    && p < |seeds| && seeds[p].id == id
    && (forall q :: 0 <= q < |seeds| && seeds[q].id == id ==> f(seeds[q]) <= f(seeds[p]))
    && (forall q :: 0 <= q < p && seeds[q].id == id ==> f(seeds[q]) < f(seeds[p]))
  }

  ghost predicate Wins(seeds: seq<Seed>, id: Id, f: Seed -> real, best: (real, Channel)) {
    exists p: nat :: FirstMax(seeds, id, f, p) && best == (f(seeds[p]), seeds[p].channel)
  }

  ghost predicate HasSeed(seeds: seq<Seed>, id: Id) {
    exists p :: 0 <= p < |seeds| && seeds[p].id == id
  }

  /** Every id of `seeds`, and no other, holds its first maximal `f` with the channel it came from. */
  ghost predicate Winners(best: map<Id, (real, Channel)>, seeds: seq<Seed>, f: Seed -> real) {
    && (forall id :: id in best <==> HasSeed(seeds, id))
    && (forall id :: id in best ==> Wins(seeds, id, f, best[id]))
  }

  ghost predicate Totals(fused: map<Id, (real, Channel)>, seeds: seq<Seed>, k: real, weight: Channel -> real)
    requires k > 0.0
  {
    && (forall id :: id in fused <==> HasSeed(seeds, id))
    && (forall id :: id in fused ==> fused[id].0 == FusedScore(seeds, id, k, weight))
  }

  lemma HasSeedSnoc(seeds: seq<Seed>, s: Seed, id: Id)
    ensures HasSeed(seeds + [s], id) <==> HasSeed(seeds, id) || s.id == id
  {
    var t := seeds + [s];
    if HasSeed(seeds, id) {
      var p :| 0 <= p < |seeds| && seeds[p].id == id;
      assert t[p].id == id;
    }
    if s.id == id {
      assert t[|seeds|].id == id;
    }
  }

  lemma WinsSnoc(seeds: seq<Seed>, s: Seed, id: Id, f: Seed -> real, best: (real, Channel))
    requires HasSeed(seeds, id) && Wins(seeds, id, f, best)
    ensures Wins(seeds + [s], id, f, if s.id == id && f(s) > best.0 then (f(s), s.channel) else best)
  {
    var t := seeds + [s];
    var p: nat :| FirstMax(seeds, id, f, p) && best == (f(seeds[p]), seeds[p].channel);
    if s.id == id && f(s) > best.0 {
      assert FirstMax(t, id, f, |seeds|);
    } else {
      assert FirstMax(t, id, f, p);
    }
  }

  lemma WinsFirst(seeds: seq<Seed>, s: Seed, f: Seed -> real)
    requires !HasSeed(seeds, s.id)
    ensures Wins(seeds + [s], s.id, f, (f(s), s.channel))
  {
    assert FirstMax(seeds + [s], s.id, f, |seeds|);
  }

  /** One step of a winner-take-all map. */
  method TakeBetter(best: map<Id, (real, Channel)>, ghost before: seq<Seed>, s: Seed, value: real,
                    ghost f: Seed -> real)
    returns (better: map<Id, (real, Channel)>)
    requires Winners(best, before, f) && value == f(s)
    ensures Winners(better, before + [s], f)
  {
    better := best;
    if s.id in best {
      if value > best[s.id].0 {
        better := best[s.id := (value, s.channel)];
      }
    } else {
      better := best[s.id := (value, s.channel)];
      WinsFirst(before, s, f);
    }
    forall id ensures id in better <==> HasSeed(before + [s], id) {
      HasSeedSnoc(before, s, id);
    }
    forall id | id in better ensures Wins(before + [s], id, f, better[id]) {
      if id in best {
        WinsSnoc(before, s, id, f, best[id]);
      }
    }
  }

  lemma FusedSnoc(seeds: seq<Seed>, s: Seed, id: Id, k: real, weight: Channel -> real)
    requires k > 0.0
    ensures FusedScore(seeds + [s], id, k, weight) ==
            FusedScore(seeds, id, k, weight) + (if s.id == id then Contribution(s, k, weight) else 0.0)
  {
    FilterConcat(seeds, [s], OfId(id));
    assert [s][1..] == [];
    SumConcat(Filter(seeds, OfId(id)), Filter([s], OfId(id)), Contributions(k, weight));
  }

  lemma FusedEmpty(seeds: seq<Seed>, id: Id, k: real, weight: Channel -> real)
    requires k > 0.0 && !HasSeed(seeds, id)
    ensures FusedScore(seeds, id, k, weight) == 0.0
  {
    FilterNone(seeds, OfId(id));
  }

  /** One step of the summing map. */
  method AddContribution(fused: map<Id, (real, Channel)>, ghost before: seq<Seed>, s: Seed, value: real, ghost k: real,
                         ghost weight: Channel -> real)
    returns (added: map<Id, (real, Channel)>)
    requires k > 0.0 && Totals(fused, before, k, weight) && value == Contribution(s, k, weight)
    ensures Totals(added, before + [s], k, weight)
  {
    if s.id in fused {
      added := fused[s.id := (fused[s.id].0 + value, fused[s.id].1)];
    } else {
      added := fused[s.id := (value, s.channel)];
      FusedEmpty(before, s.id, k, weight);
    }
    forall id ensures id in added <==> HasSeed(before + [s], id) {
      HasSeedSnoc(before, s, id);
    }
    forall id | id in added ensures added[id].0 == FusedScore(before + [s], id, k, weight) {
      FusedSnoc(before, s, id, k, weight);
    }
  }

  method WinnerTakeAll(seeds: seq<Seed>) returns (fused: map<Id, (real, Channel)>)
    ensures Winners(fused, seeds, RawScore())
  {
    fused := map[];
    for p := 0 to |seeds|
      invariant Winners(fused, seeds[..p], RawScore())
    {
      fused := TakeBetter(fused, seeds[..p], seeds[p], seeds[p].score, RawScore());
      assert seeds[..p + 1] == seeds[..p] + [seeds[p]];
    }
    assert seeds[..|seeds|] == seeds;
  }

  /** Every id carries the channel of its first largest contribution. */
  ghost predicate LabelledByBest(fused: map<Id, (real, Channel)>, seeds: seq<Seed>, f: Seed -> real) {
    forall id :: id in fused ==> exists p: nat :: FirstMax(seeds, id, f, p) && fused[id].1 == seeds[p].channel
  }

  /**
   For `k > 0` each id gets the sum of its contributions and the channel of the
   first largest one; otherwise its first largest raw score and that channel.
   */
  method RrfFuse(seeds: seq<Seed>, k: real, weight: Channel -> real) returns (fused: map<Id, (real, Channel)>)
    ensures k > 0.0 ==> Totals(fused, seeds, k, weight) && LabelledByBest(fused, seeds, Contributions(k, weight))
    ensures k <= 0.0 ==> Winners(fused, seeds, RawScore())
  {
    if k <= 0.0 {
      fused := WinnerTakeAll(seeds);
    } else {
      fused := SumReciprocalRanks(seeds, k, weight);
    }
  }

  /** A single seed is worth its channel's weight over `k` plus its rank; one that was never ranked counts as 99th. */
  lemma OneSeedFused(s: Seed, k: real, weight: Channel -> real)
    requires k > 0.0
    ensures s.rank == None ==> FusedScore([s], s.id, k, weight) == weight(s.channel) / (k + 99.0)
    ensures s.rank != None ==> FusedScore([s], s.id, k, weight) == weight(s.channel) / (k + s.rank.value as real)
  {
    FilterAll([s], OfId(s.id));
    assert Sum([s], Contributions(k, weight)) == Contribution(s, k, weight) + Sum([s][1..], Contributions(k, weight));
    assert [s][1..] == [];
  }

  method SumReciprocalRanks(seeds: seq<Seed>, k: real, weight: Channel -> real)
    returns (fused: map<Id, (real, Channel)>)
    requires k > 0.0
    ensures Totals(fused, seeds, k, weight) && LabelledByBest(fused, seeds, Contributions(k, weight))
  {
    var best: map<Id, (real, Channel)> := map[];
    fused := map[];
    for p := 0 to |seeds|
      invariant Totals(fused, seeds[..p], k, weight)
      invariant Winners(best, seeds[..p], Contributions(k, weight))
    {
      var contrib := Contribution(seeds[p], k, weight);
      fused := AddContribution(fused, seeds[..p], seeds[p], contrib, k, weight);
      best := TakeBetter(best, seeds[..p], seeds[p], contrib, Contributions(k, weight));
      assert seeds[..p + 1] == seeds[..p] + [seeds[p]];
    }
    assert seeds[..|seeds|] == seeds;
    var summed := fused;
    fused := LabelChannels(summed, best);
    LabelsAreBest(fused, summed, best, seeds, k, weight);
  }

  lemma LabelsAreBest(fused: map<Id, (real, Channel)>, summed: map<Id, (real, Channel)>, best: map<Id, (real, Channel)>,
                      seeds: seq<Seed>, k: real, weight: Channel -> real)
    requires k > 0.0 && Totals(summed, seeds, k, weight) && Winners(best, seeds, Contributions(k, weight))
    requires fused.Keys == summed.Keys
    requires forall id :: id in summed ==> fused[id] == (summed[id].0, if id in best then best[id].1 else summed[id].1)
    ensures Totals(fused, seeds, k, weight) && LabelledByBest(fused, seeds, Contributions(k, weight))
  {
    var f := Contributions(k, weight);
    forall id | id in fused ensures exists p: nat :: FirstMax(seeds, id, f, p) && fused[id].1 == seeds[p].channel {
      assert HasSeed(seeds, id);
      assert Wins(seeds, id, f, best[id]);
    }
  }

  /** Overwrites each entry's channel with the best contributor's, in whatever order the map lists them. */
  method LabelChannels(fused: map<Id, (real, Channel)>, best: map<Id, (real, Channel)>)
    returns (labelled: map<Id, (real, Channel)>)
    ensures labelled.Keys == fused.Keys
    ensures forall id :: id in fused ==> labelled[id] == (fused[id].0, if id in best then best[id].1 else fused[id].1)
  {
    var order := Enumerate(best);
    labelled := fused;
    for i := 0 to |order|
      invariant labelled.Keys == fused.Keys
      invariant forall id :: id in fused ==> labelled[id].0 == fused[id].0
      invariant forall id :: id in fused && id !in best ==> labelled[id] == fused[id]
      invariant forall j :: 0 <= j < i && order[j].0 in fused ==> labelled[order[j].0].1 == order[j].1.1
    {
      var (id, (_, channel)) := order[i];
      if id in labelled {
        labelled := labelled[id := (labelled[id].0, channel)];
      }
    }
    forall id | id in fused && id in best ensures labelled[id].1 == best[id].1 {
      assert (id, best[id]) in order;
    }
  }

  // ----- what the fused score means -----

  /** The fused score does not depend on the order of the seeds. */
  lemma FusedPermutes(a: seq<Seed>, b: seq<Seed>, id: Id, k: real, weight: Channel -> real)
    requires k > 0.0 && multiset(a) == multiset(b)
    ensures FusedScore(a, id, k, weight) == FusedScore(b, id, k, weight)
  {
    var f := Contributions(k, weight);
    SumOfKept(a, OfId(id), f);
    SumOfKept(b, OfId(id), f);
    SumPermutes(a, b, OnlyKept(OfId(id), f));
  }

  function OnlyKept<T>(keep: T -> bool, f: T -> real): T -> real {
    (x: T) => if keep(x) then f(x) else 0.0
  }

  lemma {:induction false} SumOfKept<T>(s: seq<T>, keep: T -> bool, f: T -> real)
    ensures Sum(Filter(s, keep), f) == Sum(s, OnlyKept(keep, f))
  {
    if s != [] {
      SumOfKept(s[1..], keep, f);
      var rest := Filter(s[1..], keep);
      assert ([s[0]] + rest)[1..] == rest;
    }
  }

  /** One more seed for an id, anywhere in the list, raises its score exactly when its channel has positive weight. */
  lemma ExtraChannelRaises(a: seq<Seed>, s: Seed, b: seq<Seed>, k: real, weight: Channel -> real)
    requires k > 0.0
    ensures var (more, less) := (FusedScore(a + [s] + b, s.id, k, weight), FusedScore(a + b, s.id, k, weight));
            more == less + Contribution(s, k, weight) && (more > less <==> weight(s.channel) > 0.0)
  {
    FusedPermutes(a + [s] + b, a + b + [s], s.id, k, weight);
    FusedSnoc(a + b, s, s.id, k, weight);
    var d := k + (if s.rank.Some? then s.rank.value else 99) as real;
    QuotientSign(weight(s.channel), d);
  }

  lemma QuotientSign(w: real, d: real)
    requires d > 0.0
    ensures w / d > 0.0 <==> w > 0.0
  {
    var q := w / d;
    assert q * d == w;
    assert q > 0.0 ==> q * d > 0.0;
    assert q <= 0.0 ==> q * d <= 0.0;
  }

  // ----- from pushed hits to fused score -----

  function AllChannels(): seq<Channel> {
    [Bm25, EntityInverted, SemanticDense, SemanticBinary, TemporalChannel, TopicCluster, GoalChannel, EventChannel,
     CausalChannel, RecentActivation, GraphSpreading]
  }

  /** Channel `c`'s term for an id: its weight over `k` plus the best rank the id reached there. */
  ghost function ChannelTerm(pushed: seq<Seed>, id: Id, k: real, weight: Channel -> real, c: Channel): real
    requires k > 0.0
  {
    if i: nat :| BestHit(pushed, id, c, i)
    then weight(c) / (k + ChannelRank(pushed, i) as real)
    else 0.0
  }

  ghost function ChannelTerms(pushed: seq<Seed>, id: Id, k: real, weight: Channel -> real): Channel -> real
    requires k > 0.0
  {
    (c: Channel) => ChannelTerm(pushed, id, k, weight, c)
  }

  function OnChannel(c: Channel): Seed -> bool {
    (s: Seed) => s.channel == c
  }

  function AmongChannels(cs: seq<Channel>): Seed -> bool {
    (s: Seed) => s.channel in cs
  }

  /** Splitting off one channel's seeds from a sum. */
  lemma {:induction false} SumSplitsChannel(s: seq<Seed>, c: Channel, cs: seq<Channel>, f: Seed -> real)
    requires c !in cs
    ensures Sum(Filter(s, AmongChannels([c] + cs)), f) ==
            Sum(Filter(s, OnChannel(c)), f) + Sum(Filter(s, AmongChannels(cs)), f)
  {
    if s != [] {
      SumSplitsChannel(s[1..], c, cs, f);
      var all, one, rest :=
        Filter(s[1..], AmongChannels([c] + cs)), Filter(s[1..], OnChannel(c)), Filter(s[1..], AmongChannels(cs));
      assert ([s[0]] + all)[1..] == all && ([s[0]] + one)[1..] == one && ([s[0]] + rest)[1..] == rest;
    }
  }

  ghost predicate BestHit(pushed: seq<Seed>, id: Id, c: Channel, i: nat) {
    i < |pushed| && pushed[i].id == id && pushed[i].channel == c && LowestRank(pushed, i)
  }

  ghost function KeptFor(pushed: seq<Seed>, id: Id, c: Channel): seq<Seed> {
    Filter(Filter(KeptSeeds(pushed), OfId(id)), OnChannel(c))
  }

  lemma KeptForMember(pushed: seq<Seed>, id: Id, c: Channel, s: Seed)
    ensures s in KeptFor(pushed, id, c) <==> s in KeptSeeds(pushed) && s.id == id && s.channel == c
  {
    FilterMembers(KeptSeeds(pushed), OfId(id));
    FilterMembers(Filter(KeptSeeds(pushed), OfId(id)), OnChannel(c));
  }

  lemma BestHitKept(pushed: seq<Seed>, id: Id, c: Channel, i: nat)
    requires BestHit(pushed, id, c, i)
    ensures Ranked(pushed)[i] in KeptFor(pushed, id, c)
  {
    BestIsKept(pushed, i);
    KeptForMember(pushed, id, c, Ranked(pushed)[i]);
  }

  lemma KeptBestHit(pushed: seq<Seed>, id: Id, c: Channel, s: Seed) returns (i: nat)
    requires s in KeptFor(pushed, id, c)
    ensures BestHit(pushed, id, c, i) && s == Ranked(pushed)[i]
  {
    KeptForMember(pushed, id, c, s);
    i := KeptIsBest(pushed, s);
  }

  lemma BestHitUnique(pushed: seq<Seed>, id: Id, c: Channel, i: nat, j: nat)
    requires BestHit(pushed, id, c, i) && BestHit(pushed, id, c, j)
    ensures i == j
  {
    assert SameHit(pushed[i], pushed[j]) && SameHit(pushed[j], pushed[i]);
    if i != j {
      ChannelRankOrder(pushed, i, j);
    }
  }

  /** An id keeps one seed on a channel it was pushed for, of the best rank there, and none elsewhere. */
  lemma OneTermPerChannel(pushed: seq<Seed>, id: Id, k: real, weight: Channel -> real, c: Channel)
    requires k > 0.0
    ensures Sum(KeptFor(pushed, id, c), Contributions(k, weight)) == ChannelTerm(pushed, id, k, weight, c)
  {
    var here := KeptFor(pushed, id, c);
    if i: nat :| BestHit(pushed, id, c, i) {
      BestHitKept(pushed, id, c, i);
      SingleKept(pushed, id, c);
      assert here == [Ranked(pushed)[i]];
      assert here[1..] == [];
      forall j: nat | BestHit(pushed, id, c, j) ensures j == i {
        BestHitUnique(pushed, id, c, i, j);
      }
    } else {
      if here != [] {
        var i := KeptBestHit(pushed, id, c, here[0]);
      }
    }
  }

  lemma SingleKept(pushed: seq<Seed>, id: Id, c: Channel)
    ensures |KeptFor(pushed, id, c)| <= 1
  {
    var here := KeptFor(pushed, id, c);
    KeptDistinct(pushed);
    FilterDistinct(KeptSeeds(pushed), OfId(id));
    FilterDistinct(Filter(KeptSeeds(pushed), OfId(id)), OnChannel(c));
    if |here| > 1 {
      var i := KeptBestHit(pushed, id, c, here[0]);
      var j := KeptBestHit(pushed, id, c, here[1]);
      BestHitUnique(pushed, id, c, i, j);
    }
  }

  lemma {:induction false} SumByChannel(pushed: seq<Seed>, id: Id, k: real, weight: Channel -> real, cs: seq<Channel>)
    requires k > 0.0 && Distinct(cs)
    ensures Sum(Filter(Filter(KeptSeeds(pushed), OfId(id)), AmongChannels(cs)), Contributions(k, weight))
            == Sum(cs, ChannelTerms(pushed, id, k, weight))
  {
    var mine := Filter(KeptSeeds(pushed), OfId(id));
    if cs == [] {
      FilterNone(mine, AmongChannels(cs));
    } else {
      SumByChannel(pushed, id, k, weight, cs[1..]);
      OneTermPerChannel(pushed, id, k, weight, cs[0]);
      assert cs == [cs[0]] + cs[1..];
      SumSplitsChannel(mine, cs[0], cs[1..], Contributions(k, weight));
    }
  }

  /** End to end: the fused score of an id is one term per channel it was hit on, at its best rank there. */
  lemma FusedFromHits(pushed: seq<Seed>, id: Id, k: real, weight: Channel -> real)
    requires k > 0.0
    ensures FusedScore(KeptSeeds(pushed), id, k, weight) == Sum(AllChannels(), ChannelTerms(pushed, id, k, weight))
  {
    var mine := Filter(KeptSeeds(pushed), OfId(id));
    forall s | s in mine ensures AmongChannels(AllChannels())(s) {
      EveryChannel(s.channel);
    }
    FilterAll(mine, AmongChannels(AllChannels()));
    SumByChannel(pushed, id, k, weight, AllChannels());
  }

  lemma EveryChannel(c: Channel)
    ensures c in AllChannels()
  {
    var all := AllChannels();
    assert all[0] == Bm25 && all[1] == EntityInverted && all[2] == SemanticDense && all[3] == SemanticBinary;
    assert all[4] == TemporalChannel && all[5] == TopicCluster && all[6] == GoalChannel && all[7] == EventChannel;
    assert all[8] == CausalChannel && all[9] == RecentActivation && all[10] == GraphSpreading;
  }
}
