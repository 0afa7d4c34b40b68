/** Planning summary clusters (`hippmem-consolidation/src/summarize.rs`): greedy grouping around leaders. */
module Summaries {
  import opened MemoryModel
  import opened Sorting
  import opened Sums

  /** What the planner reads of a unit. */
  datatype Candidate = Candidate(id: Id, tokens: set<string>, importance: real)

  type Similarity = (set<string>, set<string>) -> real

  datatype PlanParams = PlanParams(similarity: real, trigger: nat, lowImportance: real)

  /** Token-set Jaccard similarity; 0 for two empty sets. */
  function TextJaccard(a: set<string>, b: set<string>): real {
    if |a + b| == 0 then 0.0 else |a * b| as real / |a + b| as real
  }

  // ----- candidates -----

  ghost function Covered(units: seq<MemoryUnit>): set<Id> {
    set u, c | u in units && u.byConsolidation && c in u.preceding :: c
  }

  predicate Eligible(u: MemoryUnit, covered: set<Id>) {
    !u.lifecycle.Compressed? && u.id !in covered && !u.byConsolidation && u.tokens != {}
  }

  function CandidateOf(u: MemoryUnit): Candidate {
    Candidate(u.id, u.tokens, u.importance)
  }

  function Eligibles(units: seq<MemoryUnit>, covered: set<Id>): seq<Candidate> {
    if units == [] then []
    else
      var u := units[|units| - 1];
      Eligibles(units[..|units| - 1], covered) + (if Eligible(u, covered) then [CandidateOf(u)] else [])
  }

  predicate ById(a: Candidate, b: Candidate) {
    a.id < b.id
  }

  ghost function Candidates(units: seq<MemoryUnit>): seq<Candidate> {
    Sort(Eligibles(units, Covered(units)), ById)
  }

  predicate Ascending(s: seq<Candidate>) {
    forall i, j :: 0 <= i < j < |s| ==> s[i].id < s[j].id
  }

  // ----- groups -----

  predicate Near(a: Candidate, b: Candidate, sim: Similarity, threshold: real) {
    sim(a.tokens, b.tokens) >= threshold
  }

  function Joins(leader: Candidate, sim: Similarity, threshold: real): Candidate -> bool {
    (c: Candidate) => Near(leader, c, sim, threshold)
  }

  function Stays(leader: Candidate, sim: Similarity, threshold: real): Candidate -> bool {
    (c: Candidate) => !Near(leader, c, sim, threshold)
  }

  /** The first candidate leads and takes every later one that is near it; the rest are grouped the same way. */
  function Groups(cs: seq<Candidate>, sim: Similarity, threshold: real): seq<seq<Candidate>>
    decreases |cs|
  {
    if cs == [] then []
    else
      FilterMembers(cs[1..], Stays(cs[0], sim, threshold));
      [[cs[0]] + Filter(cs[1..], Joins(cs[0], sim, threshold))]
      + Groups(Filter(cs[1..], Stays(cs[0], sim, threshold)), sim, threshold)
  }

  function LowCount(g: seq<Candidate>, low: real): nat {
    if g == [] then 0 else LowCount(g[..|g| - 1], low) + (if g[|g| - 1].importance < low then 1 else 0)
  }

  predicate BigEnough(g: seq<Candidate>, params: PlanParams) {
    |g| >= params.trigger && LowCount(g, params.lowImportance) * 2 >= |g|
  }

  function Qualifying(params: PlanParams): seq<Candidate> -> bool {
    (g: seq<Candidate>) => BigEnough(g, params)
  }

  function Ids(g: seq<Candidate>): (r: seq<Id>)
    ensures |r| == |g|
  {
    seq(|g|, i requires 0 <= i < |g| => g[i].id)
  }

  ghost function PlannedGroups(units: seq<MemoryUnit>, sim: Similarity, params: PlanParams): seq<seq<Candidate>> {
    Filter(Groups(Candidates(units), sim, params.similarity), Qualifying(params))
  }

  function IdLists(gs: seq<seq<Candidate>>): (r: seq<seq<Id>>)
    ensures |r| == |gs|
  {
    seq(|gs|, i requires 0 <= i < |gs| => Ids(gs[i]))
  }

  ghost function Plan(units: seq<MemoryUnit>, sim: Similarity, params: PlanParams): seq<seq<Id>> {
    IdLists(PlannedGroups(units, sim, params))
  }

  // ----- candidates: who they are, and that input order does not matter -----

  ghost predicate StandsFor(c: Candidate, units: seq<MemoryUnit>, covered: set<Id>) {
    exists u :: u in units && Eligible(u, covered) && c == CandidateOf(u)
  }

  lemma {:induction false} EligiblesMembers(units: seq<MemoryUnit>, covered: set<Id>)
    ensures forall c :: c in Eligibles(units, covered) <==> StandsFor(c, units, covered)
  {
    var r := Eligibles(units, covered);
    if units != [] {
      var init, last := units[..|units| - 1], units[|units| - 1];
      EligiblesMembers(init, covered);
      assert units == init + [last];
      forall c ensures c in r <==> StandsFor(c, units, covered) {
        assert c in Eligibles(init, covered) <==> StandsFor(c, init, covered);
        assert StandsFor(c, units, covered) <==>
          StandsFor(c, init, covered) || (Eligible(last, covered) && c == CandidateOf(last)) by {
          assert last in units;
          assert forall u :: u in units <==> u in init || u == last;
        }
      }
    }
  }

  lemma {:induction false} EligiblesDistinct(units: seq<MemoryUnit>, covered: set<Id>)
    requires UniqueIds(units)
    ensures forall i, j :: 0 <= i < j < |Eligibles(units, covered)| ==>
            Eligibles(units, covered)[i].id != Eligibles(units, covered)[j].id
  {
    if units != [] {
      var init, last := units[..|units| - 1], units[|units| - 1];
      EligiblesDistinct(init, covered);
      EligiblesMembers(init, covered);
      var e := Eligibles(init, covered);
      forall i | 0 <= i < |e| ensures e[i].id != last.id {
        assert e[i] in e;
        var u :| u in init && Eligible(u, covered) && e[i] == CandidateOf(u);
        var k :| 0 <= k < |init| && init[k] == u;
        assert units[k].id != units[|units| - 1].id;
      }
    }
  }

  lemma CandidatesAscending(units: seq<MemoryUnit>)
    requires UniqueIds(units)
    ensures Ascending(Candidates(units))
    ensures forall c :: c in Candidates(units) <==> StandsFor(c, units, Covered(units))
  {
    var covered := Covered(units);
    var e := Eligibles(units, covered);
    EligiblesMembers(units, covered);
    EligiblesDistinct(units, covered);
    SortPermutes(e, ById);
    SortOrdered(e, ById);
    SortedStrict(e, Sort(e, ById));
  }

  lemma SortedStrict(e: seq<Candidate>, s: seq<Candidate>)
    requires forall i, j :: 0 <= i < j < |e| ==> e[i].id != e[j].id
    requires multiset(e) == multiset(s) && Ordered(s, ById)
    ensures Ascending(s)
  {
    forall i, j | 0 <= i < j < |s| ensures s[i].id < s[j].id {
      assert !ById(s[j], s[i]);
      assert s[i] in multiset(e) && s[j] in multiset(e);
      if s[i].id == s[j].id {
        var x :| 0 <= x < |e| && e[x] == s[i];
        var y :| 0 <= y < |e| && e[y] == s[j];
        TwiceCounted(s, i, j);
        DistinctCount(e, s[i]);
      }
    }
  }

  /** Two ascending lists with the same members are the same list. */
  lemma {:induction false} AscendingUnique(a: seq<Candidate>, b: seq<Candidate>)
    requires Ascending(a) && Ascending(b) && forall c :: c in a <==> c in b
    ensures a == b
  {
    DistinctMultiset(a, b);
    OrderedUnique(a, b, ById);
  }

  /** The plan does not depend on the order in which the units are loaded. */
  lemma PlanOrderFree(units: seq<MemoryUnit>, other: seq<MemoryUnit>, sim: Similarity, params: PlanParams)
    requires UniqueIds(units) && UniqueIds(other) && forall u :: u in units <==> u in other
    ensures Plan(units, sim, params) == Plan(other, sim, params)
  {
    assert Covered(units) == Covered(other);
    CandidatesAscending(units);
    CandidatesAscending(other);
    AscendingUnique(Candidates(units), Candidates(other));
  }

  // ----- the structure of the groups -----

  lemma {:induction false} FilterAscending(s: seq<Candidate>, keep: Candidate -> bool)
    requires Ascending(s)
    ensures Ascending(Filter(s, keep))
  {
    if s != [] {
      FilterAscending(s[1..], keep);
      FilterMembers(s[1..], keep);
      var f := Filter(s[1..], keep);
      forall j | 0 <= j < |f| ensures s[0].id < f[j].id {
        assert f[j] in s[1..];
      }
    }
  }

  /** A group is ascending, led by its first member, and everyone else is near the leader. */
  ghost predicate LedGroup(g: seq<Candidate>, sim: Similarity, threshold: real) {
    g != [] && Ascending(g) && forall i :: 0 < i < |g| ==> Near(g[0], g[i], sim, threshold)
  }

  /** Members of a later group are beyond the threshold of an earlier leader, who comes before them. */
  ghost predicate Apart(earlier: seq<Candidate>, later: seq<Candidate>, sim: Similarity, threshold: real) {
    earlier != [] && forall c :: c in later ==>
      earlier[0].id < c.id && !Near(earlier[0], c, sim, threshold) && c !in earlier
  }

  ghost predicate GroupsOf(gs: seq<seq<Candidate>>, cs: seq<Candidate>, sim: Similarity, threshold: real) {
    && (forall k :: 0 <= k < |gs| ==> LedGroup(gs[k], sim, threshold))
    && (forall k, m :: 0 <= k < m < |gs| ==> Apart(gs[k], gs[m], sim, threshold))
    && (forall c :: c in cs <==> exists g :: g in gs && c in g)
  }

  /** Greedy grouping partitions the candidates into groups with these properties. */
  lemma {:induction false} GroupsStructure(cs: seq<Candidate>, sim: Similarity, threshold: real)
    requires Ascending(cs)
    ensures GroupsOf(Groups(cs, sim, threshold), cs, sim, threshold)
    decreases |cs|
  {
    if cs != [] {
      var p, rest := cs[0], cs[1..];
      var g0, far := [p] + Filter(rest, Joins(p, sim, threshold)), Filter(rest, Stays(p, sim, threshold));
      SplitRest(p, cs, g0, far, sim, threshold);
      GroupsStructure(far, sim, threshold);
      AddGroup(g0, Groups(far, sim, threshold), far, cs, sim, threshold);
    }
  }

  lemma SplitRest(p: Candidate, cs: seq<Candidate>, g0: seq<Candidate>, far: seq<Candidate>, sim: Similarity,
                  threshold: real)
    requires cs != [] && Ascending(cs) && p == cs[0]
    requires g0 == [p] + Filter(cs[1..], Joins(p, sim, threshold)) && far == Filter(cs[1..], Stays(p, sim, threshold))
    ensures LedGroup(g0, sim, threshold) && Ascending(far) && |far| < |cs|
    ensures forall c :: c in far ==> p.id < c.id && !Near(p, c, sim, threshold) && c !in g0
    ensures forall c :: c in cs <==> c in g0 || c in far
  {
    var rest := cs[1..];
    assert cs == [p] + rest;
    FilterMembers(rest, Joins(p, sim, threshold));
    FilterMembers(rest, Stays(p, sim, threshold));
    FilterAscending(rest, Joins(p, sim, threshold));
    FilterAscending(rest, Stays(p, sim, threshold));
    FirstGroup(p, rest, Filter(rest, Joins(p, sim, threshold)), sim, threshold);
  }

  lemma AddGroup(g0: seq<Candidate>, tail: seq<seq<Candidate>>, far: seq<Candidate>, cs: seq<Candidate>,
                 sim: Similarity, threshold: real)
    requires LedGroup(g0, sim, threshold) && GroupsOf(tail, far, sim, threshold)
    requires forall c :: c in far ==> g0[0].id < c.id && !Near(g0[0], c, sim, threshold) && c !in g0
    requires forall c :: c in cs <==> c in g0 || c in far
    ensures GroupsOf([g0] + tail, cs, sim, threshold)
  {
    var gs := [g0] + tail;
    forall k, m | 0 <= k < m < |gs| ensures Apart(gs[k], gs[m], sim, threshold) {
      if k == 0 {
        assert tail[m - 1] in tail;
      }
    }
    forall c ensures c in cs <==> exists g :: g in gs && c in g {
      assert g0 in gs && forall g :: g in gs <==> g == g0 || g in tail;
      assert c in far <==> exists g :: g in tail && c in g;
    }
  }

  lemma FirstGroup(p: Candidate, rest: seq<Candidate>, near: seq<Candidate>, sim: Similarity, threshold: real)
    requires Ascending([p] + rest) && Ascending(near)
    requires forall c :: c in near ==> c in rest && Near(p, c, sim, threshold)
    ensures LedGroup([p] + near, sim, threshold)
  {
    var g := [p] + near;
    forall i | 0 <= i < |near| ensures p.id < near[i].id && Near(p, near[i], sim, threshold) {
      assert near[i] in near;
      var k :| 0 <= k < |rest| && rest[k] == near[i];
      assert ([p] + rest)[0].id < ([p] + rest)[k + 1].id;
    }
  }

  /** Led groups of eligible units, each beyond the earlier leaders, that meet the size and low-importance rules. */
  ghost predicate WellPlanned(gs: seq<seq<Candidate>>, cs: seq<Candidate>, sim: Similarity, params: PlanParams) {
    && (forall k :: 0 <= k < |gs| ==> LedGroup(gs[k], sim, params.similarity) && BigEnough(gs[k], params))
    && (forall k, m :: 0 <= k < m < |gs| ==> Apart(gs[k], gs[m], sim, params.similarity))
    && (forall g, c :: g in gs && c in g ==> c in cs)
  }

  /**
   Every planned cluster ascends from its leader, all members are near the leader and beyond every earlier planned
   leader, clusters are disjoint, and the size and low-importance rules hold. Candidates are exactly the units that
   are neither compressed, covered nor summaries and have tokens (CandidatesAscending).
   */
  lemma PlanStructure(units: seq<MemoryUnit>, sim: Similarity, params: PlanParams)
    requires UniqueIds(units)
    ensures WellPlanned(PlannedGroups(units, sim, params), Candidates(units), sim, params)
  {
    var cs := Candidates(units);
    CandidatesAscending(units);
    GroupsStructure(cs, sim, params.similarity);
    FilteredGroups(Groups(cs, sim, params.similarity), cs, sim, params);
  }

  lemma {:induction false} FilteredGroups(all: seq<seq<Candidate>>, cs: seq<Candidate>, sim: Similarity,
                                          params: PlanParams)
    requires forall k :: 0 <= k < |all| ==> LedGroup(all[k], sim, params.similarity)
    requires forall k, m :: 0 <= k < m < |all| ==> Apart(all[k], all[m], sim, params.similarity)
    requires forall g, c :: g in all && c in g ==> c in cs
    ensures WellPlanned(Filter(all, Qualifying(params)), cs, sim, params)
  {
    if all != [] {
      FilteredGroups(all[1..], cs, sim, params);
      FirstApart(all, sim, params);
      if BigEnough(all[0], params) {
        AddPlanned(all[0], Filter(all[1..], Qualifying(params)), cs, sim, params);
      }
    }
  }

  lemma FirstApart(all: seq<seq<Candidate>>, sim: Similarity, params: PlanParams)
    requires all != [] && forall k, m :: 0 <= k < m < |all| ==> Apart(all[k], all[m], sim, params.similarity)
    ensures forall g :: g in Filter(all[1..], Qualifying(params)) ==> Apart(all[0], g, sim, params.similarity)
  {
    FilterMembers(all[1..], Qualifying(params));
    forall g | g in Filter(all[1..], Qualifying(params)) ensures Apart(all[0], g, sim, params.similarity) {
      var k :| 0 <= k < |all| - 1 && all[1..][k] == g;
      assert Apart(all[0], all[k + 1], sim, params.similarity);
    }
  }

  lemma AddPlanned(g0: seq<Candidate>, gs: seq<seq<Candidate>>, cs: seq<Candidate>, sim: Similarity, params: PlanParams)
    requires WellPlanned(gs, cs, sim, params) && LedGroup(g0, sim, params.similarity) && BigEnough(g0, params)
    requires (forall c :: c in g0 ==> c in cs) && forall g :: g in gs ==> Apart(g0, g, sim, params.similarity)
    ensures WellPlanned([g0] + gs, cs, sim, params)
  {
    var all := [g0] + gs;
    forall k, m | 0 <= k < m < |all| ensures Apart(all[k], all[m], sim, params.similarity) {
      assert gs[m - 1] in gs;
    }
  }

  // ----- removing whole groups leaves the other groups as they were -----

  function Remains(gone: Candidate -> bool): Candidate -> bool {
    (c: Candidate) => !gone(c)
  }

  function Unchosen(chosen: seq<Candidate> -> bool): seq<Candidate> -> bool {
    (g: seq<Candidate>) => !chosen(g)
  }

  lemma {:induction false} FilterTwice(s: seq<Candidate>, p: Candidate -> bool, q: Candidate -> bool)
    ensures Filter(Filter(s, p), q) == Filter(Filter(s, q), p)
  {
    if s != [] {
      FilterTwice(s[1..], p, q);
      var a, b := Filter(s[1..], p), Filter(s[1..], q);
      if p(s[0]) {
        assert ([s[0]] + a)[1..] == a;
      }
      if q(s[0]) {
        assert ([s[0]] + b)[1..] == b;
      }
    }
  }

  lemma {:induction false} Regroup(cs: seq<Candidate>, sim: Similarity, threshold: real, gone: Candidate -> bool,
                                   chosen: seq<Candidate> -> bool)
    requires forall g, c :: g in Groups(cs, sim, threshold) && c in g ==> gone(c) == chosen(g)
    ensures Groups(Filter(cs, Remains(gone)), sim, threshold) == Filter(Groups(cs, sim, threshold), Unchosen(chosen))
    decreases |cs|
  {
    if cs != [] {
      var p, rest := cs[0], cs[1..];
      var joins, stays, left := Joins(p, sim, threshold), Stays(p, sim, threshold), Remains(gone);
      var near, far := Filter(rest, joins), Filter(rest, stays);
      FilterMembers(rest, joins);
      FilterMembers(rest, stays);
      var g0, tail := [p] + near, Groups(far, sim, threshold);
      var gs := Groups(cs, sim, threshold);
      assert gs == [g0] + tail && gs[1..] == tail && gs[0] == g0;
      assert g0 in gs && (forall g :: g in tail ==> g in gs);
      Regroup(far, sim, threshold, gone, chosen);
      FilterTwice(rest, stays, left);
      FilterTwice(rest, joins, left);
      assert p in g0 && (forall c :: c in near ==> c in g0);
      if chosen(g0) {
        forall c | c in Filter(rest, left) ensures stays(c) {
          FilterMembers(rest, left);
          assert joins(c) ==> c in near;
        }
        FilterAll(Filter(rest, left), stays);
      } else {
        FilterAll(near, left);
        var cs' := Filter(cs, left);
        assert cs' == [p] + Filter(rest, left) && cs'[1..] == Filter(rest, left);
      }
    }
  }

  // ----- the planner as it runs -----

  predicate Less(a: Id, b: Id) {
    a < b
  }

  lemma {:induction false} LowCountConcat(a: seq<Candidate>, b: seq<Candidate>, low: real)
    ensures LowCount(a + b, low) == LowCount(a, low) + LowCount(b, low)
  {
    if b == [] {
      assert a + b == a;
    } else {
      LowCountConcat(a, b[..|b| - 1], low);
      assert (a + b)[..|a + b| - 1] == a + b[..|b| - 1];
    }
  }

  /** Sorting the ids with the leader pushed last gives the ids with the leader first. */
  lemma LeaderFirst(p: Candidate, near: seq<Candidate>)
    requires Ascending([p] + near)
    ensures Sort(Ids(near + [p]), Less) == Ids([p] + near)
  {
    var pushed, sorted := Ids(near + [p]), Ids([p] + near);
    assert pushed == Ids(near) + [p.id] && sorted == [p.id] + Ids(near);
    SortPermutes(pushed, Less);
    SortOrdered(pushed, Less);
    OrderedUnique(Sort(pushed, Less), sorted, Less);
  }

  ghost function PlanFrom(cs: seq<Candidate>, params: PlanParams): seq<seq<Id>> {
    IdLists(Filter(Groups(cs, TextJaccard, params.similarity), Qualifying(params)))
  }

  /** One turn of the planning loop. */
  lemma PlanStep(cs: seq<Candidate>, near: seq<Candidate>, far: seq<Candidate>, params: PlanParams)
    requires cs != [] && Ascending(cs)
    requires near == Filter(cs[1..], Joins(cs[0], TextJaccard, params.similarity))
    requires far == Filter(cs[1..], Stays(cs[0], TextJaccard, params.similarity))
    ensures var members := near + [cs[0]];
            PlanFrom(cs, params) ==
            (if BigEnough(members, params) then [Sort(Ids(members), Less)] else []) + PlanFrom(far, params)
    ensures Ascending(far) && |far| < |cs|
  {
    var g0, members := [cs[0]] + near, near + [cs[0]];
    SplitRest(cs[0], cs, g0, far, TextJaccard, params.similarity);
    SameSize(cs[0], near, params);
    LeaderFirst(cs[0], near);
    var gs, tail := Groups(cs, TextJaccard, params.similarity), Groups(far, TextJaccard, params.similarity);
    assert gs == [g0] + tail;
    FirstPlanned(g0, tail, params);
  }

  lemma SameSize(p: Candidate, near: seq<Candidate>, params: PlanParams)
    ensures BigEnough([p] + near, params) <==> BigEnough(near + [p], params)
  {
    LowCountConcat(near, [p], params.lowImportance);
    LowCountConcat([p], near, params.lowImportance);
  }

  lemma FirstPlanned(g0: seq<Candidate>, tail: seq<seq<Candidate>>, params: PlanParams)
    ensures IdLists(Filter([g0] + tail, Qualifying(params))) ==
            (if BigEnough(g0, params) then [Ids(g0)] else []) + IdLists(Filter(tail, Qualifying(params)))
  {
    assert ([g0] + tail)[1..] == tail;
    var rest := Filter(tail, Qualifying(params));
    assert IdLists([g0] + rest) == [Ids(g0)] + IdLists(rest);
  }

  // ----- the plan in terms of words -----

  /** The words common to both make up at least this share of all their words. */
  ghost predicate ShareWords(a: set<string>, b: set<string>, share: real) {
    |a * b| as real >= share * |a + b| as real
  }

  lemma AtLeast(n: real, d: real, t: real)
    requires d > 0.0
    ensures n / d >= t <==> n >= t * d
  {
    var q := n / d;
    assert q * d == n;
    assert (q - t) * d == q * d - t * d;
    if q >= t {
      assert (q - t) * d >= 0.0;
    } else {
      assert (t - q) * d > 0.0 && (t - q) * d == t * d - q * d;
    }
  }

  lemma NearShareWords(a: set<string>, b: set<string>, share: real)
    requires a != {} || b != {}
    ensures TextJaccard(a, b) >= share <==> ShareWords(a, b, share)
  {
    var x :| x in a + b;
    AtLeast(|a * b| as real, |a + b| as real, share);
  }

  /** The similarity is symmetric, within [0, 1], 1 exactly for equal texts and 0 exactly without a common word. */
  lemma SimilarityLaws(a: set<string>, b: set<string>)
    ensures TextJaccard(a, b) == TextJaccard(b, a)
    ensures 0.0 <= TextJaccard(a, b) <= 1.0
    ensures TextJaccard(a, b) == 1.0 <==> a == b != {}
    ensures TextJaccard(a, b) == 0.0 <==> a !! b
  {
    assert a + b == b + a && a * b == b * a;
    CommonWithin(a, b);
    if a != {} || b != {} {
      Share(|a * b|, |a + b|);
      assert |a * b| == 0 <==> a * b == {};
    }
  }

  lemma Share(n: nat, d: nat)
    requires n <= d && d > 0
    ensures 0.0 <= n as real / d as real <= 1.0
    ensures n as real / d as real == 1.0 <==> n == d
    ensures n as real / d as real == 0.0 <==> n == 0
  {
    var q := n as real / d as real;
    assert q * d as real == n as real;
    AtLeast(n as real, d as real, 0.0);
    AtLeast(n as real, d as real, 1.0);
    if n < d {
      assert q < 1.0;
    }
  }

  lemma CommonWithin(a: set<string>, b: set<string>)
    ensures |a * b| <= |a + b|
    ensures |a * b| == |a + b| <==> a == b
    ensures a + b == {} <==> a == {} && b == {}
  {
    var apart := (a + b) - (a * b);
    assert a + b == (a * b) + apart;
    assert |a + b| == |a * b| + |apart|;
    if a == b {
      assert a * b == a + b;
    }
    if apart == {} {
      assert forall x :: x in a + b ==> x in a * b;
      assert forall x :: x in a || x in b ==> x in a + b;
    }
  }

  /** What may be summarised: live texts that are no summaries and belong to none. */
  ghost predicate MayBeSummarised(c: Candidate, units: seq<MemoryUnit>) {
    exists u :: u in units && c == Candidate(u.id, u.tokens, u.importance)
      && u.tokens != {} && !u.byConsolidation && !u.lifecycle.Compressed?
      && forall s :: s in units && s.byConsolidation ==> u.id !in s.preceding
  }

  ghost predicate LedByWords(g: seq<Candidate>, share: real) {
    && g != [] && (forall i, j :: 0 <= i < j < |g| ==> g[i].id < g[j].id)
    && (forall i :: 0 < i < |g| ==> ShareWords(g[0].tokens, g[i].tokens, share))
  }

  ghost predicate ApartByWords(earlier: seq<Candidate>, later: seq<Candidate>, share: real) {
    earlier != [] && forall c :: c in later ==>
      earlier[0].id < c.id && !ShareWords(earlier[0].tokens, c.tokens, share)
  }

  /** The texts in groups: each shares its words with the first of its group, and with the first of no earlier group. */
  ghost predicate GroupedByWords(gs: seq<seq<Candidate>>, units: seq<MemoryUnit>, share: real) {
    && (forall c :: (exists g :: g in gs && c in g) <==> MayBeSummarised(c, units))
    && (forall k :: 0 <= k < |gs| ==> LedByWords(gs[k], share))
    && (forall k, m :: 0 <= k < m < |gs| ==> ApartByWords(gs[k], gs[m], share))
  }

  /** The group is large enough, and at least half of it is unimportant. */
  ghost predicate WorthSummarising(g: seq<Candidate>, params: PlanParams) {
    |g| >= params.trigger && 2 * |set i | 0 <= i < |g| && g[i].importance < params.lowImportance| >= |g|
  }

  ghost predicate ListsIds(ids: seq<Id>, g: seq<Candidate>) {
    |ids| == |g| && forall i :: 0 <= i < |g| ==> ids[i] == g[i].id
  }

  /** The clusters are the groups worth summarising, by rising first id. */
  ghost predicate ClustersOf(clusters: seq<seq<Id>>, gs: seq<seq<Candidate>>, params: PlanParams) {
    && (forall ids :: ids in clusters <==> exists g :: g in gs && WorthSummarising(g, params) && ListsIds(ids, g))
    && RisingClusters(clusters)
  }

  ghost predicate RisingClusters(clusters: seq<seq<Id>>) {
    forall i, j :: 0 <= i < j < |clusters| ==>
      clusters[i] != [] && clusters[j] != [] && clusters[i][0] < clusters[j][0]
  }

  lemma StandsForWords(c: Candidate, units: seq<MemoryUnit>)
    ensures StandsFor(c, units, Covered(units)) <==> MayBeSummarised(c, units)
  {
    if StandsFor(c, units, Covered(units)) {
      var u :| u in units && Eligible(u, Covered(units)) && c == CandidateOf(u);
    }
    if MayBeSummarised(c, units) {
      var u :| u in units && c == Candidate(u.id, u.tokens, u.importance)
        && u.tokens != {} && !u.byConsolidation && !u.lifecycle.Compressed?
        && forall s :: s in units && s.byConsolidation ==> u.id !in s.preceding;
      assert Eligible(u, Covered(units));
    }
  }

  lemma {:induction false} LowCountIsSize(g: seq<Candidate>, low: real)
    ensures LowCount(g, low) == |set i | 0 <= i < |g| && g[i].importance < low|
  {
    if g != [] {
      var n := |g| - 1;
      LowCountIsSize(g[..n], low);
      var before := set i | 0 <= i < n && g[..n][i].importance < low;
      var all := set i | 0 <= i < |g| && g[i].importance < low;
      assert all == if g[n].importance < low then before + {n} else before;
    }
  }

  lemma BigEnoughIsWorth(g: seq<Candidate>, params: PlanParams)
    ensures BigEnough(g, params) <==> WorthSummarising(g, params)
  {
    LowCountIsSize(g, params.lowImportance);
  }

  /** The groups that planning forms are those that the words decide. */
  lemma GroupsByWords(units: seq<MemoryUnit>, share: real)
    requires UniqueIds(units)
    ensures GroupedByWords(Groups(Candidates(units), TextJaccard, share), units, share)
  {
    var cs := Candidates(units);
    var gs := Groups(cs, TextJaccard, share);
    CandidatesAscending(units);
    GroupsStructure(cs, TextJaccard, share);
    forall c ensures (exists g :: g in gs && c in g) <==> MayBeSummarised(c, units) {
      StandsForWords(c, units);
    }
    forall g, c | g in gs && c in g ensures c.tokens != {} {
      StandsForWords(c, units);
    }
    forall k | 0 <= k < |gs| ensures LedByWords(gs[k], share) {
      assert gs[k] in gs && gs[k][0] in gs[k];
      forall i | 0 < i < |gs[k]| ensures ShareWords(gs[k][0].tokens, gs[k][i].tokens, share) {
        NearShareWords(gs[k][0].tokens, gs[k][i].tokens, share);
      }
    }
    forall k, m | 0 <= k < m < |gs| ensures ApartByWords(gs[k], gs[m], share) {
      assert Apart(gs[k], gs[m], TextJaccard, share);
      assert gs[k] in gs && gs[k][0] in gs[k];
      forall c | c in gs[m] ensures !ShareWords(gs[k][0].tokens, c.tokens, share) {
        NearShareWords(gs[k][0].tokens, c.tokens, share);
      }
    }
  }

  lemma PlannedIsWorth(units: seq<MemoryUnit>, params: PlanParams, ids: seq<Id>)
    ensures ids in Plan(units, TextJaccard, params) <==>
            exists g :: g in Groups(Candidates(units), TextJaccard, params.similarity)
              && WorthSummarising(g, params) && ListsIds(ids, g)
  {
    var gs := Groups(Candidates(units), TextJaccard, params.similarity);
    var planned, clusters := PlannedGroups(units, TextJaccard, params), Plan(units, TextJaccard, params);
    FilterMembers(gs, Qualifying(params));
    if ids in clusters {
      var k :| 0 <= k < |clusters| && clusters[k] == ids;
      assert planned[k] in planned;
      BigEnoughIsWorth(planned[k], params);
      assert ListsIds(ids, planned[k]);
    }
    if g :| g in gs && WorthSummarising(g, params) && ListsIds(ids, g) {
      BigEnoughIsWorth(g, params);
      var k :| 0 <= k < |planned| && planned[k] == g;
      assert clusters[k] == ids;
    }
  }

  lemma PlanRises(units: seq<MemoryUnit>, params: PlanParams)
    requires UniqueIds(units)
    ensures RisingClusters(Plan(units, TextJaccard, params))
  {
    var planned, clusters := PlannedGroups(units, TextJaccard, params), Plan(units, TextJaccard, params);
    PlanStructure(units, TextJaccard, params);
    forall i, j | 0 <= i < j < |clusters|
      ensures clusters[i] != [] && clusters[j] != [] && clusters[i][0] < clusters[j][0]
    {
      assert Apart(planned[i], planned[j], TextJaccard, params.similarity);
      assert LedGroup(planned[j], TextJaccard, params.similarity) && planned[j][0] in planned[j];
    }
  }

  lemma PlanByWords(units: seq<MemoryUnit>, params: PlanParams)
    requires UniqueIds(units)
    ensures ClustersOf(Plan(units, TextJaccard, params),
                       Groups(Candidates(units), TextJaccard, params.similarity), params)
  {
    PlanRises(units, params);
    forall ids ensures ids in Plan(units, TextJaccard, params) <==>
                       exists g :: g in Groups(Candidates(units), TextJaccard, params.similarity)
                         && WorthSummarising(g, params) && ListsIds(ids, g) {
      PlannedIsWorth(units, params, ids);
    }
  }

  method PlanSummaryClusters(units: seq<MemoryUnit>, params: PlanParams) returns (clusters: seq<seq<Id>>)
    requires UniqueIds(units)
    ensures clusters == Plan(units, TextJaccard, params)
    ensures exists gs :: GroupedByWords(gs, units, params.similarity) && ClustersOf(clusters, gs, params)
  {
    var covered := CollectCovered(units);
    var candidates := CollectCandidates(units, covered);
    CandidatesAscending(units);
    clusters := PlanCandidates(Sort(candidates, ById), params);
    GroupsByWords(units, params.similarity);
    PlanByWords(units, params);
  }

  /** The greedy loop: the first candidate left leads a group, and what it leaves is planned in turn. */
  method PlanCandidates(sorted: seq<Candidate>, params: PlanParams) returns (clusters: seq<seq<Id>>)
    requires Ascending(sorted)
    ensures clusters == PlanFrom(sorted, params)
  {
    var candidates := sorted;
    clusters := [];
    while candidates != []
      invariant Ascending(candidates)
      invariant clusters + PlanFrom(candidates, params) == PlanFrom(sorted, params)
      decreases |candidates|
    {
      var cluster, remaining := PlanTurn(candidates, params);
      clusters := clusters + cluster;
      candidates := remaining;
    }
  }

  /** One turn: the pivot takes the candidates near it, and the group becomes a cluster if it meets the rules. */
  method PlanTurn(candidates: seq<Candidate>, params: PlanParams)
    returns (cluster: seq<seq<Id>>, remaining: seq<Candidate>)
    requires candidates != [] && Ascending(candidates)
    ensures PlanFrom(candidates, params) == cluster + PlanFrom(remaining, params)
    ensures Ascending(remaining) && |remaining| < |candidates|
  {
    var pivot := candidates[0];
    var members;
    members, remaining := SplitCandidates(pivot, candidates[1..], params.similarity);
    PlanStep(candidates, members, remaining, params);
    members := members + [pivot];
    var low := CountLow(members, params.lowImportance);
    cluster := if |members| >= params.trigger && low * 2 >= |members| then [Sort(Ids(members), Less)] else [];
  }

  method CollectCovered(units: seq<MemoryUnit>) returns (covered: set<Id>)
    ensures covered == Covered(units)
  {
    covered := {};
    for i := 0 to |units|
      invariant covered == Covered(units[..i])
    {
      assert units[..i + 1] == units[..i] + [units[i]];
      if units[i].byConsolidation {
        covered := covered + (set c | c in units[i].preceding);
      }
    }
    assert units[..|units|] == units;
  }

  method CollectCandidates(units: seq<MemoryUnit>, covered: set<Id>) returns (candidates: seq<Candidate>)
    ensures candidates == Eligibles(units, covered)
  {
    candidates := [];
    for i := 0 to |units|
      invariant candidates == Eligibles(units[..i], covered)
    {
      assert units[..i + 1][..i] == units[..i];
      if Eligible(units[i], covered) {
        candidates := candidates + [CandidateOf(units[i])];
      }
    }
    assert units[..|units|] == units;
  }

  method SplitCandidates(pivot: Candidate, rest: seq<Candidate>, threshold: real)
    returns (members: seq<Candidate>, remaining: seq<Candidate>)
    ensures members == Filter(rest, Joins(pivot, TextJaccard, threshold))
    ensures remaining == Filter(rest, Stays(pivot, TextJaccard, threshold))
  {
    members, remaining := [], [];
    for i := 0 to |rest|
      invariant members == Filter(rest[..i], Joins(pivot, TextJaccard, threshold))
      invariant remaining == Filter(rest[..i], Stays(pivot, TextJaccard, threshold))
    {
      var c := rest[i];
      assert rest[..i + 1] == rest[..i] + [c] && [c][1..] == [];
      FilterConcat(rest[..i], [c], Joins(pivot, TextJaccard, threshold));
      FilterConcat(rest[..i], [c], Stays(pivot, TextJaccard, threshold));
      if TextJaccard(pivot.tokens, c.tokens) >= threshold {
        members := members + [c];
      } else {
        remaining := remaining + [c];
      }
    }
    assert rest[..|rest|] == rest;
  }

  method CountLow(g: seq<Candidate>, low: real) returns (n: nat)
    ensures n == LowCount(g, low)
  {
    n := 0;
    for i := 0 to |g|
      invariant n == LowCount(g[..i], low)
    {
      assert g[..i + 1][..i] == g[..i];
      if g[i].importance < low {
        n := n + 1;
      }
    }
    assert g[..|g|] == g;
  }
}
