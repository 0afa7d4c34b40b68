/** Ranking, de-duplication and rank fusion of recalled seeds (`hippmem-retrieval/src/seeds.rs`). */
module Seeds {
  import opened MemoryModel
  import opened Sorting
  import opened Sums

  datatype Channel =
    | Bm25 | EntityInverted | SemanticDense | SemanticBinary | TemporalChannel | TopicCluster
    | GoalChannel | EventChannel
    | CausalChannel | RecentActivation | GraphSpreading

  datatype Seed = Seed(id: Id, channel: Channel, score: real, rank: Option<nat>)

  predicate HigherScore(a: Seed, b: Seed) {
    a.score > b.score
  }

  // ----- ranks -----

  /** Index `j` is of the same channel as `i` and goes ahead of it when the channel is sorted. */
  ghost function AheadInChannel(seeds: seq<Seed>, i: nat): nat -> bool
    requires i < |seeds|
  {
    (j: nat) => j < |seeds| && seeds[j].channel == seeds[i].channel && IsAhead(seeds, j, i, HigherScore)
  }

  /** The rank of seed `i` in its channel: how many seeds of the channel go ahead of it. */
  ghost function ChannelRank(seeds: seq<Seed>, i: nat): nat
    requires i < |seeds|
  {
    CountTo(|seeds|, AheadInChannel(seeds, i))
  }

  ghost function Ranked(seeds: seq<Seed>): (r: seq<Seed>)
    ensures |r| == |seeds|
  {
    seq(|seeds|, i requires 0 <= i < |seeds| => seeds[i].(rank := Some(ChannelRank(seeds, i))))
  }

  /** Within a channel ranks are distinct and follow score, ties going to the seed pushed first. */
  lemma ChannelRankOrder(seeds: seq<Seed>, i: nat, j: nat)
    requires i < |seeds| && j < |seeds| && i != j && seeds[i].channel == seeds[j].channel
    ensures ChannelRank(seeds, i) < ChannelRank(seeds, j) <==> IsAhead(seeds, i, j, HigherScore)
    ensures ChannelRank(seeds, i) != ChannelRank(seeds, j)
  {
    if IsAhead(seeds, i, j, HigherScore) {
      AheadRanksLower(seeds, i, j);
    } else {
      AheadRanksLower(seeds, j, i);
    }
  }

  lemma AheadRanksLower(seeds: seq<Seed>, i: nat, j: nat)
    requires i < |seeds| && j < |seeds| && i != j && seeds[i].channel == seeds[j].channel &&
             IsAhead(seeds, i, j, HigherScore)
    ensures ChannelRank(seeds, i) < ChannelRank(seeds, j)
  {
    var p, q := AheadInChannel(seeds, i), AheadInChannel(seeds, j);
    forall k: nat | k < |seeds| && p(k) ensures q(k) {
      assert IsAhead(seeds, k, i, HigherScore);
    }
    assert q(i) && !p(i);
    CountMonotone(|seeds|, p, q);
  }

  // ----- assigning ranks: group by channel, sort each group, number it -----

  /** The indices of the channel's seeds among the first `n`, ascending. */
  ghost function Group(seeds: seq<Seed>, c: Channel, n: nat): seq<nat>
    requires n <= |seeds|
  {
    if n == 0 then []
    else Group(seeds, c, n - 1) + (if seeds[n - 1].channel == c then [n - 1] else [])
  }

  function ScoreAt(seeds: seq<Seed>, i: nat): real {
    if i < |seeds| then seeds[i].score else 0.0
  }

  function ByScore(seeds: seq<Seed>): (nat, nat) -> bool {
    (i: nat, j: nat) => ScoreAt(seeds, i) > ScoreAt(seeds, j)
  }

  lemma {:induction false} GroupMembers(seeds: seq<Seed>, c: Channel, n: nat)
    requires n <= |seeds|
    ensures forall i: nat :: i in Group(seeds, c, n) <==> i < n && seeds[i].channel == c
    ensures forall p, q :: 0 <= p < q < |Group(seeds, c, n)| ==> Group(seeds, c, n)[p] < Group(seeds, c, n)[q]
  {
    if n > 0 {
      GroupMembers(seeds, c, n - 1);
      var g := Group(seeds, c, n - 1);
      forall p | 0 <= p < |g| ensures g[p] < n - 1 {
        assert g[p] in g;
      }
    }
  }

  /** Counting over a channel's group is counting over all indices of that channel. */
  lemma {:induction false} CountInGroup(seeds: seq<Seed>, c: Channel, n: nat, p: nat -> bool, q: nat -> bool)
    requires n <= |seeds|
    requires forall j: nat :: j < n ==> p(j) ==> seeds[j].channel == c
    requires forall k: nat :: k < |Group(seeds, c, n)| ==> q(k) == p(Group(seeds, c, n)[k])
    ensures CountTo(n, p) == CountTo(|Group(seeds, c, n)|, q)
  {
    if n > 0 {
      var g, g' := Group(seeds, c, n - 1), Group(seeds, c, n);
      forall k: nat | k < |g| ensures q(k) == p(g[k]) {
        assert g'[k] == g[k];
      }
      CountInGroup(seeds, c, n - 1, p, q);
      if seeds[n - 1].channel == c {
        assert g'[|g|] == n - 1;
      }
    }
  }

  /** The channel's indices after its group is sorted by score. */
  ghost function InRankOrder(seeds: seq<Seed>, c: Channel): seq<nat> {
    Sort<nat>(Group(seeds, c, |seeds|), ByScore(seeds))
  }

  /** Position `k` of the sorted group holds the seed of channel rank `k`. */
  lemma SortedGroupRank(seeds: seq<Seed>, c: Channel, i: nat)
    requires i < |seeds| && seeds[i].channel == c
    ensures ChannelRank(seeds, i) < |InRankOrder(seeds, c)| && InRankOrder(seeds, c)[ChannelRank(seeds, i)] == i
  {
    var g := Group(seeds, c, |seeds|);
    GroupMembers(seeds, c, |seeds|);
    var p :| 0 <= p < |g| && g[p] == i;
    SortPosition(g, p, ByScore(seeds));
    var ahead := AheadOf(g, p, ByScore(seeds));
    forall k: nat | k < |g| ensures ahead(k) == AheadInChannel(seeds, i)(g[k]) {
      AheadInGroup(seeds, c, p, k);
    }
    CountInGroup(seeds, c, |seeds|, AheadInChannel(seeds, i), ahead);
  }

  lemma AheadInGroup(seeds: seq<Seed>, c: Channel, p: nat, k: nat)
    requires p < |Group(seeds, c, |seeds|)| && k < |Group(seeds, c, |seeds|)|
    ensures var g := Group(seeds, c, |seeds|);
            g[p] < |seeds| && AheadOf(g, p, ByScore(seeds))(k) == AheadInChannel(seeds, g[p])(g[k])
  {
    var g := Group(seeds, c, |seeds|);
    GroupMembers(seeds, c, |seeds|);
    assert g[k] in g && g[p] in g;
    assert k < p <==> g[k] < g[p];
  }

  method AssignRanks(pushed: seq<Seed>) returns (seeds: seq<Seed>)
    ensures seeds == Ranked(pushed)
  {
    var groups := GroupByChannel(pushed);
    var order := Enumerate(groups);
    seeds := pushed;
    for g := 0 to |order|
      invariant RankedChannels(seeds, pushed, order, g)
    {
      ghost var c := order[g].0;
      assert GroupFor(groups, c) == Group(pushed, c, |pushed|);
      var sorted := Sort<nat>(order[g].1, ByScore(pushed));
      seeds := NumberGroup(seeds, pushed, sorted, order[g].0);
      ChannelDone(seeds, pushed, order, g);
    }
    AllChannelsDone(seeds, pushed, order, groups);
  }

  /** The seeds of the same channel with a higher score, or with the same score and pushed earlier. */
  ghost function Ahead(seeds: seq<Seed>, i: nat): set<nat>
    requires i < |seeds|
  {
    set j: nat | j < |seeds| && seeds[j].channel == seeds[i].channel &&
      (seeds[j].score > seeds[i].score || (seeds[j].score == seeds[i].score && j < i))
  }

  /** The rank of a seed is the number of seeds of its channel ahead of it, so the best one has rank 0. */
  lemma RanksExactly(seeds: seq<Seed>, i: nat)
    requires i < |seeds|
    ensures Ranked(seeds)[i] == seeds[i].(rank := Some(|Ahead(seeds, i)|))
  {
    CountIsSize(|seeds|, AheadInChannel(seeds, i));
    assert (set j: nat | j < |seeds| && AheadInChannel(seeds, i)(j)) == Ahead(seeds, i);
  }

  function GroupFor(groups: map<Channel, seq<nat>>, c: Channel): seq<nat> {
    if c in groups then groups[c] else []
  }

  /** The map holds exactly the non-empty groups of the first `n` seeds. */
  ghost predicate GroupsUpTo(groups: map<Channel, seq<nat>>, seeds: seq<Seed>, n: nat)
    requires n <= |seeds|
  {
    && (forall c :: GroupFor(groups, c) == Group(seeds, c, n))
    && (forall c :: c in groups ==> groups[c] != [])
  }

  method GroupByChannel(seeds: seq<Seed>) returns (groups: map<Channel, seq<nat>>)
    ensures GroupsUpTo(groups, seeds, |seeds|)
  {
    groups := map[];
    for i := 0 to |seeds|
      invariant GroupsUpTo(groups, seeds, i)
    {
      groups := PushIndex(groups, seeds, i);
    }
  }

  method PushIndex(groups: map<Channel, seq<nat>>, seeds: seq<Seed>, i: nat) returns (pushed: map<Channel, seq<nat>>)
    requires i < |seeds| && GroupsUpTo(groups, seeds, i)
    ensures GroupsUpTo(pushed, seeds, i + 1)
  {
    var c := seeds[i].channel;
    pushed := groups[c := GroupFor(groups, c) + [i]];
    forall d ensures GroupFor(pushed, d) == Group(seeds, d, i + 1) {
      assert GroupFor(groups, d) == Group(seeds, d, i);
    }
  }

  /** Seeds of the first `n` channels carry their rank, the others are as pushed. */
  ghost predicate RankedChannels(seeds: seq<Seed>, pushed: seq<Seed>, order: seq<(Channel, seq<nat>)>, n: nat)
    requires n <= |order|
  {
    |seeds| == |pushed| && forall i :: 0 <= i < |pushed| ==>
      seeds[i] == if ChannelAmong(order, n, pushed[i].channel)
                  then pushed[i].(rank := Some(ChannelRank(pushed, i))) else pushed[i]
  }

  ghost predicate ChannelAmong(order: seq<(Channel, seq<nat>)>, n: nat, c: Channel)
    requires n <= |order|
  {
    exists k :: 0 <= k < n && order[k].0 == c
  }

  method NumberGroup(seeds: seq<Seed>, ghost pushed: seq<Seed>, sorted: seq<nat>, ghost c: Channel)
    returns (numbered: seq<Seed>)
    requires |seeds| == |pushed| && sorted == InRankOrder(pushed, c)
    requires forall i :: 0 <= i < |pushed| && pushed[i].channel == c ==> seeds[i] == pushed[i]
    ensures |numbered| == |seeds|
    ensures forall i :: 0 <= i < |seeds| ==>
              numbered[i] == if pushed[i].channel == c
                             then pushed[i].(rank := Some(ChannelRank(pushed, i))) else seeds[i]
  {
    numbered := seeds;
    SortedGroup(pushed, c);
    for k := 0 to |sorted|
      invariant |numbered| == |seeds|
      invariant forall i :: 0 <= i < |seeds| ==>
                  numbered[i] == if pushed[i].channel == c && ChannelRank(pushed, i) < k
                                 then pushed[i].(rank := Some(ChannelRank(pushed, i))) else seeds[i]
    {
      var i := sorted[k];
      assert i in sorted;
      SortedGroupRank(pushed, c, i);
      forall j | 0 <= j < |pushed| && pushed[j].channel == c && ChannelRank(pushed, j) == k ensures j == i {
        SortedGroupRank(pushed, c, j);
      }
      assert ChannelRank(pushed, i) == k;
      numbered := numbered[i := numbered[i].(rank := Some(k))];
    }
    forall i | 0 <= i < |seeds| && pushed[i].channel == c ensures ChannelRank(pushed, i) < |sorted| {
      SortedGroupRank(pushed, c, i);
    }
  }

  lemma SortedGroup(seeds: seq<Seed>, c: Channel)
    ensures var s := InRankOrder(seeds, c);
            (forall i: nat :: i in s <==> i < |seeds| && seeds[i].channel == c)
            && forall k: nat :: k < |s| ==> s[k] < |seeds| && ChannelRank(seeds, s[k]) == k
  {
    var g := Group(seeds, c, |seeds|);
    var s := InRankOrder(seeds, c);
    GroupMembers(seeds, c, |seeds|);
    SortPermutes<nat>(g, ByScore(seeds));
    forall k: nat | k < |s| ensures s[k] < |seeds| && ChannelRank(seeds, s[k]) == k {
      assert s[k] in s;
      SortedGroupRank(seeds, c, s[k]);
      var r := ChannelRank(seeds, s[k]);
      if r != k {
        TwiceCounted(s, if r < k then r else k, if r < k then k else r);
        DistinctCount(g, s[k]);
      }
    }
  }

  lemma ChannelDone(seeds: seq<Seed>, pushed: seq<Seed>, order: seq<(Channel, seq<nat>)>, n: nat)
    requires n < |order| && |seeds| == |pushed|
    requires forall i :: 0 <= i < |pushed| ==>
      seeds[i] == if pushed[i].channel == order[n].0 || ChannelAmong(order, n, pushed[i].channel)
                  then pushed[i].(rank := Some(ChannelRank(pushed, i))) else pushed[i]
    ensures RankedChannels(seeds, pushed, order, n + 1)
  {
    forall c ensures ChannelAmong(order, n + 1, c) <==> ChannelAmong(order, n, c) || c == order[n].0 {
      if ChannelAmong(order, n + 1, c) {
        var k :| 0 <= k < n + 1 && order[k].0 == c;
        assert k == n || ChannelAmong(order, n, c);
      }
    }
  }

  lemma AllChannelsDone(seeds: seq<Seed>, pushed: seq<Seed>, order: seq<(Channel, seq<nat>)>,
                        groups: map<Channel, seq<nat>>)
    requires IsListing(order, groups) && RankedChannels(seeds, pushed, order, |order|)
    requires GroupsUpTo(groups, pushed, |pushed|)
    ensures seeds == Ranked(pushed)
  {
    forall i | 0 <= i < |pushed| ensures ChannelAmong(order, |order|, pushed[i].channel) {
      var c := pushed[i].channel;
      GroupMembers(pushed, c, |pushed|);
      assert i in Group(pushed, c, |pushed|);
      assert GroupFor(groups, c) != [];
      assert (c, groups[c]) in order;
    }
  }

  // ----- sorting all seeds and dropping duplicates -----

  /** The stable sort of all ranked seeds, best score first. */
  ghost function Arranged(pushed: seq<Seed>): seq<Seed> {
    Sort(Ranked(pushed), HigherScore)
  }

  predicate SameHit(s: Seed, t: Seed) {
    s.id == t.id && s.channel == t.channel
  }

  /** Index `i` has the lowest rank among the seeds pushed for its (id, channel). */
  ghost predicate LowestRank(pushed: seq<Seed>, i: nat)
    requires i < |pushed|
  {
    forall j :: 0 <= j < |pushed| && SameHit(pushed[j], pushed[i]) ==> ChannelRank(pushed, i) <= ChannelRank(pushed, j)
  }

  ghost function IsBest(pushed: seq<Seed>): Seed -> bool {
    (s: Seed) => exists i :: 0 <= i < |pushed| && Ranked(pushed)[i] == s && LowestRank(pushed, i)
  }

  /** What retrieval is given: of each (id, channel) the seed of lowest rank, best score first. */
  ghost function KeptSeeds(pushed: seq<Seed>): seq<Seed> {
    Filter(Arranged(pushed), IsBest(pushed))
  }

  /** The seed at position `p` of the arrangement was pushed at this index. */
  lemma IndexAt(pushed: seq<Seed>, p: nat) returns (i: nat)
    requires p < |Arranged(pushed)|
    ensures i < |pushed| && Arranged(pushed)[p] == Ranked(pushed)[i] && Rank(Ranked(pushed), i, HigherScore) == p
  {
    var ranked, sorted := Ranked(pushed), Arranged(pushed);
    SortPermutes(ranked, HigherScore);
    assert sorted[p] in sorted;
    i :| 0 <= i < |ranked| && ranked[i] == sorted[p];
    SortPosition(ranked, i, HigherScore);
    var r := Rank(ranked, i, HigherScore);
    RankedDistinct(pushed);
    if r != p {
      TwiceCounted(sorted, if r < p then r else p, if r < p then p else r);
      DistinctCount(ranked, sorted[p]);
    }
  }

  lemma RankedDistinct(pushed: seq<Seed>)
    ensures Distinct(Ranked(pushed))
  {
    var ranked := Ranked(pushed);
    forall i, j | 0 <= i < j < |ranked| ensures ranked[i] != ranked[j] {
      if pushed[i].channel == pushed[j].channel {
        ChannelRankOrder(pushed, i, j);
      }
    }
  }

  /** Within a channel the arrangement runs through the ranks upwards. */
  lemma ArrangedByRank(pushed: seq<Seed>, i: nat, j: nat)
    requires i < |pushed| && j < |pushed| && pushed[i].channel == pushed[j].channel
    ensures var r := Ranked(pushed);
            Rank(r, i, HigherScore) < Rank(r, j, HigherScore) <==> ChannelRank(pushed, i) < ChannelRank(pushed, j)
  {
    if i != j {
      ChannelRankOrder(pushed, i, j);
      RankOrder(Ranked(pushed), i, j, HigherScore);
      assert IsAhead(Ranked(pushed), i, j, HigherScore) <==> IsAhead(pushed, i, j, HigherScore);
    }
  }

  /** First in the arrangement for its (id, channel) means lowest rank for it. */
  lemma FirstIsBest(pushed: seq<Seed>, p: nat)
    requires p < |Arranged(pushed)|
    ensures IsBest(pushed)(Arranged(pushed)[p]) <==>
            forall q :: 0 <= q < p ==> !SameHit(Arranged(pushed)[q], Arranged(pushed)[p])
  {
    var sorted, ranked := Arranged(pushed), Ranked(pushed);
    var i := IndexAt(pushed, p);
    RankedDistinct(pushed);
    assert IsBest(pushed)(sorted[p]) <==> LowestRank(pushed, i);
    if !LowestRank(pushed, i) {
      var j :| 0 <= j < |pushed| && SameHit(pushed[j], pushed[i]) && ChannelRank(pushed, j) < ChannelRank(pushed, i);
      ArrangedByRank(pushed, j, i);
      SortPosition(ranked, j, HigherScore);
      assert SameHit(sorted[Rank(ranked, j, HigherScore)], sorted[p]);
    } else {
      forall q | 0 <= q < p ensures !SameHit(sorted[q], sorted[p]) {
        var j := IndexAt(pushed, q);
        if SameHit(sorted[q], sorted[p]) {
          ArrangedByRank(pushed, j, i);
        }
      }
    }
  }

  /** The tail of `multi_channel_seeds`: number the channels, sort, keep the first of each (id, channel). */
  method RankAndDedup(pushed: seq<Seed>) returns (kept: seq<Seed>)
    ensures kept == KeptSeeds(pushed)
  {
    var ranked := AssignRanks(pushed);
    var seeds := Sort(ranked, HigherScore);
    var seen: set<(Id, Channel)> := {};
    kept := [];
    for p := 0 to |seeds|
      invariant forall k: (Id, Channel) :: k in seen <==> exists q :: 0 <= q < p && (seeds[q].id, seeds[q].channel) == k
      invariant kept == Filter(seeds[..p], IsBest(pushed))
    {
      FirstIsBest(pushed, p);
      FilterLast(seeds[..p + 1], IsBest(pushed));
      assert seeds[..p + 1][..p] == seeds[..p];
      var key := (seeds[p].id, seeds[p].channel);
      assert key in seen <==> exists q :: 0 <= q < p && SameHit(seeds[q], seeds[p]);
      if key !in seen {
        seen := seen + {key};
        kept := kept + [seeds[p]];
      }
    }
    assert seeds[..|seeds|] == seeds;
  }

  /** Some seed pushed for the (id, channel) of index `i` has the lowest rank. */
  lemma {:induction false} BestIndex(pushed: seq<Seed>, i: nat) returns (b: nat)
    requires i < |pushed|
    ensures b < |pushed| && SameHit(pushed[b], pushed[i]) && LowestRank(pushed, b)
    decreases ChannelRank(pushed, i)
  {
    if LowestRank(pushed, i) {
      b := i;
    } else {
      var j: nat :| j < |pushed| && SameHit(pushed[j], pushed[i]) && ChannelRank(pushed, j) < ChannelRank(pushed, i);
      b := BestIndex(pushed, j);
    }
  }

  lemma BestIsKept(pushed: seq<Seed>, b: nat)
    requires b < |pushed| && LowestRank(pushed, b)
    ensures Ranked(pushed)[b] in KeptSeeds(pushed)
  {
    var ranked := Ranked(pushed);
    SortPermutes(ranked, HigherScore);
    assert ranked[b] in ranked;
    FilterMembers(Arranged(pushed), IsBest(pushed));
  }

  lemma KeptIsBest(pushed: seq<Seed>, s: Seed) returns (b: nat)
    requires s in KeptSeeds(pushed)
    ensures b < |pushed| && LowestRank(pushed, b) && s == Ranked(pushed)[b]
  {
    FilterMembers(Arranged(pushed), IsBest(pushed));
    b :| 0 <= b < |pushed| && Ranked(pushed)[b] == s && LowestRank(pushed, b);
  }

  /** Every pushed (id, channel) is kept, by a seed of lowest rank and highest score among its duplicates. */
  lemma KeptBeatsDuplicates(pushed: seq<Seed>, i: nat)
    requires i < |pushed|
    ensures exists s :: s in KeptSeeds(pushed) && SameHit(s, pushed[i])
    ensures forall s :: s in KeptSeeds(pushed) && SameHit(s, pushed[i]) ==>
              s.rank.Some? && s.rank.value <= ChannelRank(pushed, i) && s.score >= pushed[i].score
  {
    var b := BestIndex(pushed, i);
    BestIsKept(pushed, b);
    assert SameHit(Ranked(pushed)[b], pushed[i]);
    forall s | s in KeptSeeds(pushed) && SameHit(s, pushed[i])
      ensures s.rank.Some? && s.rank.value <= ChannelRank(pushed, i) && s.score >= pushed[i].score
    {
      var c := KeptIsBest(pushed, s);
      if c != i {
        ChannelRankOrder(pushed, c, i);
      }
    }
  }

  /** One seed is kept per (id, channel), and ranks within a channel stay distinct. */
  lemma KeptOncePerChannel(pushed: seq<Seed>, p: nat, q: nat)
    requires p < q < |KeptSeeds(pushed)| && KeptSeeds(pushed)[p].channel == KeptSeeds(pushed)[q].channel
    ensures KeptSeeds(pushed)[p].id != KeptSeeds(pushed)[q].id
    ensures KeptSeeds(pushed)[p].rank != KeptSeeds(pushed)[q].rank
  {
    KeptDistinct(pushed);
    var b := KeptIsBest(pushed, KeptSeeds(pushed)[p]);
    var c := KeptIsBest(pushed, KeptSeeds(pushed)[q]);
    ChannelRankOrder(pushed, b, c);
  }

  lemma {:induction false} FilterOrdered(s: seq<Seed>, keep: Seed -> bool)
    requires Ordered(s, HigherScore)
    ensures Ordered(Filter(s, keep), HigherScore)
  {
    if s != [] {
      FilterOrdered(s[1..], keep);
      FilterMembers(s[1..], keep);
      var rest := Filter(s[1..], keep);
      forall j | 0 <= j < |rest| ensures !HigherScore(rest[j], s[0]) {
        assert rest[j] in s[1..];
        var k :| 1 <= k < |s| && s[k] == rest[j];
      }
    }
  }

  /** Seeds are kept by falling score. */
  lemma KeptByScore(pushed: seq<Seed>, i: nat, j: nat)
    requires i < j < |KeptSeeds(pushed)|
    ensures KeptSeeds(pushed)[i].score >= KeptSeeds(pushed)[j].score
  {
    SortOrdered(Ranked(pushed), HigherScore);
    FilterOrdered(Arranged(pushed), IsBest(pushed));
  }

  lemma KeptDistinct(pushed: seq<Seed>)
    ensures Distinct(KeptSeeds(pushed))
  {
    var sorted, ranked := Arranged(pushed), Ranked(pushed);
    RankedDistinct(pushed);
    SortPermutes(ranked, HigherScore);
    forall i, j | 0 <= i < j < |sorted| ensures sorted[i] != sorted[j] {
      if sorted[i] == sorted[j] {
        TwiceCounted(sorted, i, j);
        DistinctCount(ranked, sorted[i]);
      }
    }
    FilterDistinct(sorted, IsBest(pushed));
  }
}
