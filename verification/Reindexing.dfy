/**
 Consolidation across a reindex. A reindex stages every logged record as an ordinary active memory
 (`reindex_one` in `consolidate_api.rs`), so what was a summary or compressed is neither any more, and planning
 starts over. This module says what a consolidation after a reindex plans, and when it creates nothing.
 */
module Reindexing {
  import opened MemoryModel
  import opened Sorting
  import opened Sums
  import opened Worker
  import opened Decay
  import opened Summaries
  import opened Compression
  import opened StoreTables
  import opened StoreRuns
  import opened LinkRuns

  // ----- grouping with latecomers -----

  ghost predicate NonEmptyGroups(gs: seq<seq<Candidate>>) {
    forall k :: 0 <= k < |gs| ==> gs[k] != []
  }

  /**
   The groups joined by later candidates: each goes to the first leader it is near, the others form groups of their
   own.
   */
  ghost function Joined(gs: seq<seq<Candidate>>, xs: seq<Candidate>, sim: Similarity,
                        threshold: real): seq<seq<Candidate>>
    requires NonEmptyGroups(gs)
  {
    if gs == [] then Groups(xs, sim, threshold)
    else
      [gs[0] + Filter(xs, Joins(gs[0][0], sim, threshold))]
      + Joined(gs[1..], Filter(xs, Stays(gs[0][0], sim, threshold)), sim, threshold)
  }

  lemma {:induction false} GroupsNonEmpty(cs: seq<Candidate>, sim: Similarity, threshold: real)
    ensures NonEmptyGroups(Groups(cs, sim, threshold))
    decreases |cs|
  {
    if cs != [] {
      FilterMembers(cs[1..], Stays(cs[0], sim, threshold));
      GroupsNonEmpty(Filter(cs[1..], Stays(cs[0], sim, threshold)), sim, threshold);
    }
  }

  /** Appending candidates leaves the leaders as they were and only adds to their groups. */
  lemma {:induction false} GroupsAppend(cs: seq<Candidate>, xs: seq<Candidate>, sim: Similarity, threshold: real)
    requires NonEmptyGroups(Groups(cs, sim, threshold))
    ensures Groups(cs + xs, sim, threshold) == Joined(Groups(cs, sim, threshold), xs, sim, threshold)
    decreases |cs|
  {
    if cs == [] {
      assert cs + xs == xs;
    } else {
      var p, rest := cs[0], cs[1..];
      var stays := Stays(p, sim, threshold);
      FilterMembers(rest, stays);
      GroupsNonEmpty(Filter(rest, stays), sim, threshold);
      GroupsAppend(Filter(rest, stays), Filter(xs, stays), sim, threshold);
      assert cs + xs == [p] + (rest + xs) && cs == [p] + rest;
      AppendStep(p, rest, xs, sim, threshold);
    }
  }

  lemma AppendStep(p: Candidate, rest: seq<Candidate>, xs: seq<Candidate>, sim: Similarity, threshold: real)
    requires NonEmptyGroups(Groups([p] + rest, sim, threshold))
    requires var stays := Stays(p, sim, threshold);
             var gs := Groups(Filter(rest, stays), sim, threshold);
             NonEmptyGroups(gs)
             && Groups(Filter(rest, stays) + Filter(xs, stays), sim, threshold) ==
                  Joined(gs, Filter(xs, stays), sim, threshold)
    ensures Groups([p] + (rest + xs), sim, threshold) == Joined(Groups([p] + rest, sim, threshold), xs, sim, threshold)
  {
    FirstGroupJoined(p, rest, xs, sim, threshold);
    JoinedStep([p] + Filter(rest, Joins(p, sim, threshold)),
               Groups(Filter(rest, Stays(p, sim, threshold)), sim, threshold),
               xs, sim, threshold);
  }

  lemma FirstGroupJoined(p: Candidate, rest: seq<Candidate>, xs: seq<Candidate>, sim: Similarity, threshold: real)
    ensures var joins, stays := Joins(p, sim, threshold), Stays(p, sim, threshold);
            && Groups([p] + rest, sim, threshold) ==
                 [[p] + Filter(rest, joins)] + Groups(Filter(rest, stays), sim, threshold)
            && Groups([p] + (rest + xs), sim, threshold) ==
               [[p] + Filter(rest, joins) + Filter(xs, joins)] +
                 Groups(Filter(rest, stays) + Filter(xs, stays), sim, threshold)
  {
    var joins, stays := Joins(p, sim, threshold), Stays(p, sim, threshold);
    assert ([p] + rest)[1..] == rest && ([p] + (rest + xs))[1..] == rest + xs;
    FilterConcat(rest, xs, joins);
    FilterConcat(rest, xs, stays);
    assert [p] + (Filter(rest, joins) + Filter(xs, joins)) == [p] + Filter(rest, joins) + Filter(xs, joins);
  }

  lemma JoinedStep(g: seq<Candidate>, gs: seq<seq<Candidate>>, xs: seq<Candidate>, sim: Similarity, threshold: real)
    requires g != [] && NonEmptyGroups(gs)
    ensures NonEmptyGroups([g] + gs)
    ensures Joined([g] + gs, xs, sim, threshold) ==
            [g + Filter(xs, Joins(g[0], sim, threshold))] +
              Joined(gs, Filter(xs, Stays(g[0], sim, threshold)), sim, threshold)
  {
    assert ([g] + gs)[1..] == gs;
  }

  lemma {:induction false} JoinedByNone(gs: seq<seq<Candidate>>, sim: Similarity, threshold: real)
    requires NonEmptyGroups(gs)
    ensures Joined(gs, [], sim, threshold) == gs
  {
    if gs != [] {
      JoinedByNone(gs[1..], sim, threshold);
      assert gs[0] + [] == gs[0] && gs == [gs[0]] + gs[1..];
    }
  }

  /** Every group is still there, with at most the latecomers added. */
  lemma {:induction false} JoinedExtends(gs: seq<seq<Candidate>>, xs: seq<Candidate>, sim: Similarity, threshold: real,
                                         g: seq<Candidate>)
    returns (ys: seq<Candidate>)
    requires NonEmptyGroups(gs) && g in gs
    ensures g + ys in Joined(gs, xs, sim, threshold) && |ys| <= |xs|
  {
    var joins, stays := Joins(gs[0][0], sim, threshold), Stays(gs[0][0], sim, threshold);
    FilterMembers(xs, joins);
    FilterMembers(xs, stays);
    if gs[0] == g {
      ys := Filter(xs, joins);
      assert Joined(gs, xs, sim, threshold)[0] == g + ys;
    } else {
      ys := JoinedExtends(gs[1..], Filter(xs, stays), sim, threshold, g);
    }
  }

  // ----- planning over again -----

  /** What the planner reads of the units. */
  ghost function Texts(units: seq<MemoryUnit>): set<Candidate> {
    set u | u in units :: CandidateOf(u)
  }

  /** Nothing is marked: no unit is compressed or a summary. */
  ghost predicate Unmarked(units: seq<MemoryUnit>) {
    forall u :: u in units ==> !u.byConsolidation && !u.lifecycle.Compressed?
  }

  ghost predicate LaterThan(id: Id, texts: set<Candidate>) {
    forall c :: c in texts ==> c.id < id
  }

  /** `after` has the units of `before`, as the planner reads them, and later ones; none is marked. */
  ghost predicate StartsOver(after: seq<MemoryUnit>, before: seq<MemoryUnit>) {
    && Unmarked(before) && Unmarked(after) && Texts(before) <= Texts(after)
    && (forall c :: c in Texts(after) ==> c in Texts(before) || LaterThan(c.id, Texts(before)))
  }

  ghost function Latecomer(before: seq<MemoryUnit>): Candidate -> bool {
    (c: Candidate) => LaterThan(c.id, Texts(before))
  }

  /** The candidates that the earlier plan did not have. */
  ghost function Latecomers(after: seq<MemoryUnit>, before: seq<MemoryUnit>): seq<Candidate> {
    Filter(Candidates(after), Latecomer(before))
  }

  lemma UnmarkedCandidates(units: seq<MemoryUnit>)
    requires Unmarked(units) && UniqueIds(units)
    ensures Ascending(Candidates(units))
    ensures forall c :: c in Candidates(units) <==> c in Texts(units) && c.tokens != {}
  {
    CandidatesAscending(units);
    assert Covered(units) == {};
    forall c ensures c in Candidates(units) <==> c in Texts(units) && c.tokens != {} {
      if c in Texts(units) && c.tokens != {} {
        var u :| u in units && c == CandidateOf(u);
        assert Eligible(u, Covered(units));
      }
    }
  }

  /** The candidates are those of the earlier plan, and the latecomers after them. */
  lemma CandidatesAgain(after: seq<MemoryUnit>, before: seq<MemoryUnit>)
    requires UniqueIds(after) && UniqueIds(before) && StartsOver(after, before)
    ensures Candidates(after) == Candidates(before) + Latecomers(after, before)
  {
    var cs, xs := Candidates(before), Latecomers(after, before);
    UnmarkedCandidates(before);
    UnmarkedCandidates(after);
    FilterMembers(Candidates(after), Latecomer(before));
    FilterAscending(Candidates(after), Latecomer(before));
    forall i, j | 0 <= i < |cs| && 0 <= j < |xs| ensures cs[i].id < xs[j].id {
      assert cs[i] in cs && xs[j] in xs;
    }
    AscendingUnique(Candidates(after), cs + xs);
  }

  lemma {:induction false} NoneCreatedExactly(clusters: seq<seq<Id>>, gate: seq<Id> -> bool, generate: nat -> Id)
    ensures SummariesFor(clusters, gate, generate) == [] <==> forall ids :: ids in clusters ==> !gate(ids)
  {
    if clusters != [] {
      var n := |clusters| - 1;
      NoneCreatedExactly(clusters[..n], gate, generate);
      assert clusters == clusters[..n] + [clusters[n]];
    }
  }

  ghost predicate NoneChosen(gs: seq<seq<Candidate>>, params: PlanParams, gate: seq<Id> -> bool) {
    forall g :: g in gs ==> !ChosenBy(params, gate)(g)
  }

  lemma NoneChosenExactly(units: seq<MemoryUnit>, sim: Similarity, params: PlanParams, gate: seq<Id> -> bool,
                          generate: nat -> Id)
    ensures SummariesFor(Plan(units, sim, params), gate, generate) == [] <==>
            NoneChosen(Groups(Candidates(units), sim, params.similarity), params, gate)
  {
    var gs := Groups(Candidates(units), sim, params.similarity);
    var planned, plan := PlannedGroups(units, sim, params), Plan(units, sim, params);
    NoneCreatedExactly(plan, gate, generate);
    FilterMembers(gs, Qualifying(params));
    forall g | g in gs && ChosenBy(params, gate)(g) ensures Ids(g) in plan {
      PlannedIds(units, sim, params, g);
    }
    forall ids | ids in plan && gate(ids) ensures exists g :: g in gs && ChosenBy(params, gate)(g) {
      var k :| 0 <= k < |plan| && plan[k] == ids;
      assert planned[k] in planned && ChosenBy(params, gate)(planned[k]);
    }
  }

  /** Exactly what the new plan comes to: the earlier groups, joined by the latecomers. */
  lemma ReplansExactly(after: seq<MemoryUnit>, before: seq<MemoryUnit>, sim: Similarity, params: PlanParams,
                       gate: seq<Id> -> bool, generate: nat -> Id)
    requires UniqueIds(after) && UniqueIds(before) && StartsOver(after, before)
    ensures NonEmptyGroups(Groups(Candidates(before), sim, params.similarity))
    ensures SummariesFor(Plan(after, sim, params), gate, generate) == [] <==>
            NoneChosen(Joined(Groups(Candidates(before), sim, params.similarity), Latecomers(after, before), sim,
                              params.similarity),
                       params, gate)
  {
    CandidatesAgain(after, before);
    GroupsNonEmpty(Candidates(before), sim, params.similarity);
    GroupsAppend(Candidates(before), Latecomers(after, before), sim, params.similarity);
    NoneChosenExactly(after, sim, params, gate, generate);
  }

  /** A longer cluster passes the gate if a shorter one does, as with the deterministic summarizer's confidence. */
  ghost predicate GateGrows(gate: seq<Id> -> bool) {
    forall a, b :: gate(a) && a <= b ==> gate(b)
  }

  lemma ConfidenceGrows()
    ensures GateGrows(Confident)
  {
    forall a: seq<Id>, b: seq<Id> | Confident(a) && a <= b ensures Confident(b) {
      assert |a| as real <= |b| as real;
    }
  }

  /** The chosen groups stay mostly unimportant even with `n` more members. */
  ghost predicate MajorityToSpare(gs: seq<seq<Candidate>>, params: PlanParams, gate: seq<Id> -> bool, n: nat) {
    forall g :: g in gs && ChosenBy(params, gate)(g) ==> LowCount(g, params.lowImportance) * 2 >= |g| + n
  }

  lemma ExtendedChosen(g: seq<Candidate>, ys: seq<Candidate>, params: PlanParams, gate: seq<Id> -> bool)
    requires GateGrows(gate) && ChosenBy(params, gate)(g) && LowCount(g, params.lowImportance) * 2 >= |g| + |ys|
    ensures ChosenBy(params, gate)(g + ys)
  {
    LowCountConcat(g, ys, params.lowImportance);
    var a, b := Ids(g), Ids(g + ys);
    assert b[..|a|] == a && a <= b;
    assert gate(a) && gate(b);
  }

  /**
   Starting over creates nothing exactly when the earlier plan created nothing and there are no latecomers to
   change that, as long as the chosen clusters can take the latecomers without losing their unimportant majority.
   */
  lemma StartingOverExactly(after: seq<MemoryUnit>, before: seq<MemoryUnit>, sim: Similarity, params: PlanParams,
                            gate: seq<Id> -> bool, generate: nat -> Id, generateNext: nat -> Id)
    requires UniqueIds(after) && UniqueIds(before) && StartsOver(after, before) && GateGrows(gate)
    requires MajorityToSpare(Groups(Candidates(before), sim, params.similarity), params, gate,
                             |Latecomers(after, before)|)
    requires SummariesFor(Plan(before, sim, params), gate, generate) == [] ==> Latecomers(after, before) == []
    ensures SummariesFor(Plan(after, sim, params), gate, generateNext) == [] <==>
            SummariesFor(Plan(before, sim, params), gate, generate) == []
  {
    var gs, xs := Groups(Candidates(before), sim, params.similarity), Latecomers(after, before);
    ReplansExactly(after, before, sim, params, gate, generateNext);
    NoneChosenExactly(before, sim, params, gate, generate);
    if SummariesFor(Plan(before, sim, params), gate, generate) == [] {
      JoinedByNone(gs, sim, params.similarity);
    } else {
      var g :| g in gs && ChosenBy(params, gate)(g);
      var ys := JoinedExtends(gs, xs, sim, params.similarity, g);
      ExtendedChosen(g, ys, params, gate);
    }
  }

  // ----- the store across a reindex -----

  ghost function RowTexts(rows: map<Id, MemoryUnit>): set<Candidate> {
    set x | x in rows :: CandidateOf(rows[x])
  }

  /** Every record is live and unmarked, as after a reindex or a run of writes. */
  ghost predicate Plain(t: Tables) {
    && RowsSound(t) && t.log.Keys == t.kv.Keys
    && (forall x :: x in t.kv ==> PlainRow(t.kv[x], t.log[x]))
  }

  ghost predicate PlainRow(u: MemoryUnit, logged: MemoryUnit) {
    !u.byConsolidation && !u.lifecycle.Compressed? && CandidateOf(u) == CandidateOf(logged)
  }

  /** Staging a record again keeps its text and passes its importance on. */
  ghost predicate Faithful(restage: Restaging) {
    forall p, u :: restage(p, u).tokens == u.tokens && restage(p, u).importance == u.importance
  }

  lemma ReindexedRow(t: Tables, restage: Restaging, x: Id)
    requires Faithful(restage) && x in t.log && t.log[x].id == x
    ensures x in ReindexStep(t, restage).kv && PlainRow(ReindexStep(t, restage).kv[x], t.log[x])
    ensures ReindexStep(t, restage).kv[x].lifecycle == Active
  {
    var order := AscendingIds(t.log.Keys);
    assert x in order;
    var i :| 0 <= i < |order| && order[i] == x;
    ReindexRows(t, order, restage);
  }

  lemma ReindexIsPlain(t: Tables, restage: Restaging)
    requires Faithful(restage) && RowsSound(t)
    ensures Plain(ReindexStep(t, restage)) && ReindexStep(t, restage).log == t.log
    ensures forall x :: x in ReindexStep(t, restage).kv ==> ReindexStep(t, restage).kv[x].lifecycle == Active
  {
    var r := ReindexStep(t, restage);
    ReindexFacts(t, restage);
    forall x | x in r.kv ensures PlainRow(r.kv[x], r.log[x]) && r.kv[x].lifecycle == Active {
      ReindexedRow(t, restage, x);
    }
  }

  lemma CycleKeepsTexts(units: seq<MemoryUnit>, kv: map<Id, MemoryUnit>, input: CycleInput, curve: Curve)
    requires IsLoad(units, kv)
    ensures Texts(CycleUnits(units, input, curve)) == RowTexts(kv)
  {
    var cycled := CycleUnits(units, input, curve);
    forall c ensures c in Texts(cycled) <==> c in RowTexts(kv) {
      if c in Texts(cycled) {
        var v :| v in cycled && c == CandidateOf(v);
        var i :| 0 <= i < |cycled| && cycled[i] == v;
        assert units[i] in units && c == CandidateOf(kv[units[i].id]);
      }
      if c in RowTexts(kv) {
        var x :| x in kv && c == CandidateOf(kv[x]);
        var i := LoadedAt(kv, units, x);
        assert cycled[i] in cycled && c == CandidateOf(cycled[i]);
      }
    }
  }

  lemma PlainTexts(t: Tables, units: seq<MemoryUnit>, input: CycleInput, curve: Curve)
    requires Plain(t) && IsLoad(units, t.kv)
    ensures Unmarked(CycleUnits(units, input, curve))
    ensures Texts(CycleUnits(units, input, curve)) == RowTexts(t.log)
  {
    CycleKeepsTexts(units, t.kv, input, curve);
    SameRowTexts(t.kv, t.log);
    var cycled := CycleUnits(units, input, curve);
    forall u | u in cycled ensures !u.byConsolidation && !u.lifecycle.Compressed? {
      var i :| 0 <= i < |cycled| && cycled[i] == u;
      assert units[i] in units;
      assert PlainRow(t.kv[units[i].id], t.log[units[i].id]);
    }
  }

  lemma SameRowTexts(a: map<Id, MemoryUnit>, b: map<Id, MemoryUnit>)
    requires a.Keys == b.Keys && forall x :: x in a ==> PlainRow(a[x], b[x])
    ensures RowTexts(a) == RowTexts(b)
  {
    forall c ensures c in RowTexts(a) <==> c in RowTexts(b) {
      if c in RowTexts(a) {
        var x :| x in a && c == CandidateOf(a[x]);
        assert x in b.Keys && PlainRow(a[x], b[x]);
      }
      if c in RowTexts(b) {
        var x :| x in b && c == CandidateOf(b[x]);
        assert x in a.Keys && PlainRow(a[x], b[x]);
      }
    }
  }

  /** `later` extends `log` by records with larger ids only. */
  ghost predicate ExtendedLog(log: map<Id, MemoryUnit>, later: map<Id, MemoryUnit>, summaries: seq<Summary>) {
    && (forall x :: x in log ==> x in later && later[x] == log[x])
    && (forall x :: x in later && x !in log ==>
        IsSummaryId(summaries, |summaries|, x) && (forall y :: y in log ==> y < x))
  }

  /** Both plans, before the consolidation and after the reindex, are made from the logged texts. */
  lemma StartsOverFromLogs(after: seq<MemoryUnit>, before: seq<MemoryUnit>, log: map<Id, MemoryUnit>,
                           later: map<Id, MemoryUnit>, summaries: seq<Summary>)
    requires Unmarked(after) && Unmarked(before) && Texts(before) == RowTexts(log) && Texts(after) == RowTexts(later)
    requires ExtendedLog(log, later, summaries) && (forall x :: x in log ==> log[x].id == x) &&
             (forall x :: x in later ==> later[x].id == x)
    ensures StartsOver(after, before)
    ensures forall c :: c in Texts(after) && LaterThan(c.id, Texts(before)) ==>
            IsSummaryId(summaries, |summaries|, c.id)
  {
    forall c | c in Texts(before) ensures c in Texts(after) {
      var x :| x in log && c == CandidateOf(log[x]);
      assert x in later && c == CandidateOf(later[x]);
    }
    forall c | c in Texts(after)
      ensures c in Texts(before) || LaterThan(c.id, Texts(before))
      ensures LaterThan(c.id, Texts(before)) ==> IsSummaryId(summaries, |summaries|, c.id)
    {
      var x :| x in later && c == CandidateOf(later[x]);
      if x in log {
        assert c in Texts(before) && !LaterThan(c.id, Texts(before));
      }
    }
  }

  lemma FewLatecomers(after: seq<MemoryUnit>, before: seq<MemoryUnit>, summaries: seq<Summary>)
    requires Unmarked(after) && UniqueIds(after)
    requires forall c :: c in Texts(after) && LaterThan(c.id, Texts(before)) ==>
             IsSummaryId(summaries, |summaries|, c.id)
    ensures |Latecomers(after, before)| <= |summaries|
  {
    var xs := Latecomers(after, before);
    UnmarkedCandidates(after);
    FilterMembers(Candidates(after), Latecomer(before));
    FilterAscending(Candidates(after), Latecomer(before));
    var ids := seq(|summaries|, k requires 0 <= k < |summaries| => summaries[k].id);
    forall x | x in Ids(xs) ensures x in ids {
      var i :| 0 <= i < |xs| && Ids(xs)[i] == x;
      assert xs[i] in xs;
      var k :| 0 <= k < |summaries| && summaries[k].id == x;
      assert ids[k] == x;
    }
    DistinctFits(Ids(xs), ids);
  }

  lemma LogAfterConsolidation(t: Tables, input: CycleInput, curve: Curve, summaries: seq<Summary>, stage: Staging)
    requires RowsSound(t) && FreshFor(summaries, t) && forall s, x :: s in summaries && x in t.log ==> x < s.id
    ensures ExtendedLog(t.log, ConsolidateStep(t, input, curve, summaries, stage).log, summaries)
    ensures RowsSound(ConsolidateStep(t, input, curve, summaries, stage))
  {
    var r := ConsolidateStep(t, input, curve, summaries, stage);
    KvAfterConsolidation(t, input, curve, summaries, stage);
    ConsolidateKeeps(t, input, curve, summaries, stage);
    forall x | x in r.log && x !in t.log
      ensures IsSummaryId(summaries, |summaries|, x) && (forall y :: y in t.log ==> y < x)
    {
      var k :| 0 <= k < |summaries| && summaries[k].id == x;
      assert summaries[k] in summaries;
    }
  }

  /** The plan after consolidation and reindex starts over, with at most the summaries as latecomers. */
  lemma ReindexStartsOver(t: Tables, units: seq<MemoryUnit>, input: CycleInput, curve: Curve, summaries: seq<Summary>,
                          stage: Staging,
                          restage: Restaging, loaded: seq<MemoryUnit>, next: CycleInput, nextCurve: Curve)
    requires Plain(t) && IsLoad(units, t.kv) && Faithful(restage)
    requires FreshFor(summaries, t) && forall s, x :: s in summaries && x in t.log ==> x < s.id
    requires IsLoad(loaded, ReindexStep(ConsolidateStep(t, input, curve, summaries, stage), restage).kv)
    ensures StartsOver(CycleUnits(loaded, next, nextCurve), CycleUnits(units, input, curve))
    ensures |Latecomers(CycleUnits(loaded, next, nextCurve), CycleUnits(units, input, curve))| <= |summaries|
  {
    var t1 := ConsolidateStep(t, input, curve, summaries, stage);
    var before, after := CycleUnits(units, input, curve), CycleUnits(loaded, next, nextCurve);
    LogAfterConsolidation(t, input, curve, summaries, stage);
    ReindexIsPlain(t1, restage);
    PlainTexts(t, units, input, curve);
    PlainTexts(ReindexStep(t1, restage), loaded, next, nextCurve);
    StartsOverFromLogs(after, before, t.log, t1.log, summaries);
    CycleKeepsIds(loaded, next, nextCurve);
    FewLatecomers(after, before, summaries);
  }

  // ----- from any store: the log decides -----

  /** The logged records in ascending id order, none of them marked. */
  ghost function Restored(log: map<Id, MemoryUnit>): seq<MemoryUnit> {
    var order := AscendingIds(log.Keys);
    assert forall i :: 0 <= i < |order| ==> order[i] in order;
    seq(|order|, i requires 0 <= i < |order| => log[order[i]].(byConsolidation := false, lifecycle := Active))
  }

  lemma RestoredTexts(log: map<Id, MemoryUnit>)
    requires forall x :: x in log ==> log[x].id == x
    ensures Unmarked(Restored(log)) && UniqueIds(Restored(log)) && Texts(Restored(log)) == RowTexts(log)
  {
    var order, units := AscendingIds(log.Keys), Restored(log);
    forall i | 0 <= i < |order|
      ensures order[i] in log && units[i].id == order[i] && CandidateOf(units[i]) == CandidateOf(log[order[i]])
    {
      assert order[i] in order;
    }
    forall c | c in RowTexts(log) ensures c in Texts(units) {
      var x :| x in log && c == CandidateOf(log[x]);
      assert x in order;
      var i :| 0 <= i < |order| && order[i] == x;
      assert units[i] in units;
    }
    forall c | c in Texts(units) ensures c in RowTexts(log) {
      var u :| u in units && c == CandidateOf(u);
      var i :| 0 <= i < |units| && units[i] == u;
    }
  }

  lemma SameTextsSameCandidates(a: seq<MemoryUnit>, b: seq<MemoryUnit>)
    requires Unmarked(a) && Unmarked(b) && UniqueIds(a) && UniqueIds(b) && Texts(a) == Texts(b)
    ensures Candidates(a) == Candidates(b)
  {
    UnmarkedCandidates(a);
    UnmarkedCandidates(b);
    AscendingUnique(Candidates(a), Candidates(b));
  }

  /** After a reindex the plan depends on the log alone: whatever was deleted, compressed or summarised before. */
  lemma PlanAfterReindex(t: Tables, restage: Restaging, loaded: seq<MemoryUnit>, next: CycleInput, nextCurve: Curve,
                         sim: Similarity, params: PlanParams)
    requires RowsSound(t) && Faithful(restage) && IsLoad(loaded, ReindexStep(t, restage).kv)
    ensures Plan(CycleUnits(loaded, next, nextCurve), sim, params) == Plan(Restored(t.log), sim, params)
  {
    ReindexIsPlain(t, restage);
    PlainTexts(ReindexStep(t, restage), loaded, next, nextCurve);
    CycleKeepsIds(loaded, next, nextCurve);
    RestoredTexts(t.log);
    SameTextsSameCandidates(CycleUnits(loaded, next, nextCurve), Restored(t.log));
  }

  lemma LogStartsOver(log: map<Id, MemoryUnit>, later: map<Id, MemoryUnit>, summaries: seq<Summary>)
    requires ExtendedLog(log, later, summaries)
    requires (forall x :: x in log ==> log[x].id == x) && forall x :: x in later ==> later[x].id == x
    ensures StartsOver(Restored(later), Restored(log)) && UniqueIds(Restored(later)) && UniqueIds(Restored(log))
    ensures |Latecomers(Restored(later), Restored(log))| <= |summaries|
  {
    RestoredTexts(log);
    RestoredTexts(later);
    StartsOverFromLogs(Restored(later), Restored(log), log, later, summaries);
    FewLatecomers(Restored(later), Restored(log), summaries);
  }

  /** The groups that the logged records form, joined by the summaries logged since. */
  ghost function JoinedGroups(log: map<Id, MemoryUnit>, later: map<Id, MemoryUnit>, sim: Similarity,
                              threshold: real): seq<seq<Candidate>> {
    GroupsNonEmpty(Candidates(Restored(log)), sim, threshold);
    Joined(Groups(Candidates(Restored(log)), sim, threshold), Latecomers(Restored(later), Restored(log)), sim,
           threshold)
  }

  /**
   Consolidating, reindexing and consolidating again, from any sound store: the last step creates nothing exactly when
   no group of the logged records, joined by at most one latecomer for each summary of the first consolidation, is big
   and unimportant enough and passes the gate. Deleted memories count, as the reindex brings them back.
   */
  lemma ReplansAcrossReindexExactly(t: Tables, input: CycleInput, curve: Curve, summaries: seq<Summary>,
                                    stage: Staging, restage: Restaging, loaded: seq<MemoryUnit>, next: CycleInput,
                                    nextCurve: Curve, sim: Similarity, params: PlanParams, gate: seq<Id> -> bool,
                                    generateNext: nat -> Id)
    requires RowsSound(t) && Faithful(restage)
    requires FreshFor(summaries, t) && forall s, x :: s in summaries && x in t.log ==> x < s.id
    requires IsLoad(loaded, ReindexStep(ConsolidateStep(t, input, curve, summaries, stage), restage).kv)
    ensures var later := ConsolidateStep(t, input, curve, summaries, stage).log;
            && |Latecomers(Restored(later), Restored(t.log))| <= |summaries|
            && (SummariesFor(Plan(CycleUnits(loaded, next, nextCurve), sim, params), gate, generateNext) == [] <==>
                NoneChosen(JoinedGroups(t.log, later, sim, params.similarity), params, gate))
  {
    var t1 := ConsolidateStep(t, input, curve, summaries, stage);
    LogAfterConsolidation(t, input, curve, summaries, stage);
    LogStartsOver(t.log, t1.log, summaries);
    PlanAfterReindex(t1, restage, loaded, next, nextCurve, sim, params);
    ReplansExactly(Restored(t1.log), Restored(t.log), sim, params, gate, generateNext);
  }

  // ----- from a plain store -----

  /** Every cluster that is summarised stays mostly unimportant even if all the summaries should join it. */
  ghost predicate SpareForSummaries(units: seq<MemoryUnit>, sim: Similarity, params: PlanParams, gate: seq<Id> -> bool,
                                    generate: nat -> Id) {
    var summaries := SummariesFor(Plan(units, sim, params), gate, generate);
    MajorityToSpare(Groups(Candidates(units), sim, params.similarity), params, gate, |summaries|)
  }

  /**
   A reindex between two consolidations forgets the summaries. From a plain store, the second consolidation creates
   nothing exactly when the first created nothing: wherever the first made a summary, its sources are summarised again.
   The ids generated for summaries are later than all logged ids, and every cluster of the first consolidation has a
   majority of unimportant members to spare for the summaries that may now join it.
   */
  lemma StableAcrossReindexExactly(t: Tables, units: seq<MemoryUnit>, input: CycleInput, curve: Curve, sim: Similarity,
                                   params: PlanParams, gate: seq<Id> -> bool, generate: nat -> Id, stage: Staging,
                                   restage: Restaging, loaded: seq<MemoryUnit>, next: CycleInput, nextCurve: Curve,
                                   generateNext: nat -> Id)
    requires Plain(t) && IsLoad(units, t.kv) && Faithful(restage) && GateGrows(gate)
    requires Injective(generate) && forall k: nat, x :: x in t.log ==> x < generate(k)
    requires SpareForSummaries(CycleUnits(units, input, curve), sim, params, gate, generate)
    requires var summaries := SummariesFor(Plan(CycleUnits(units, input, curve), sim, params), gate, generate);
             IsLoad(loaded, ReindexStep(ConsolidateStep(t, input, curve, summaries, stage), restage).kv)
    ensures SummariesFor(Plan(CycleUnits(loaded, next, nextCurve), sim, params), gate, generateNext) == [] <==>
            SummariesFor(Plan(CycleUnits(units, input, curve), sim, params), gate, generate) == []
  {
    var before, after := CycleUnits(units, input, curve), CycleUnits(loaded, next, nextCurve);
    var plan := Plan(before, sim, params);
    var summaries := SummariesFor(plan, gate, generate);
    SummariesOrigin(plan, gate, generate);
    SummariesDistinct(plan, gate, generate);
    forall s, x | s in summaries && x in t.log ensures x < s.id {
      var k: nat :| k < |plan| && s.id == generate(k);
    }
    ReindexStartsOver(t, units, input, curve, summaries, stage, restage, loaded, next, nextCurve);
    CycleKeepsIds(units, input, curve);
    CycleKeepsIds(loaded, next, nextCurve);
    StartingOverExactly(after, before, sim, params, gate, generate, generateNext);
  }
}
