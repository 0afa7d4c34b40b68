/**
 Inputs the store can receive on which a documented property fails, run from the empty store: each shows that the
 condition of the exact theorem beside it is needed.
 */
module Witnesses {
  import opened MemoryModel
  import opened Sorting
  import opened Sums
  import opened ActivationLogs
  import opened Hebbian
  import opened Decay
  import opened Compaction
  import opened Worker
  import opened Summaries
  import opened Compression
  import opened StoreTables
  import opened Deletion
  import opened StoreRuns
  import opened LinkRuns
  import opened Reindexing

  // ----- runs of writes -----

  function Writes(us: seq<MemoryUnit>): (r: seq<Op>)
    ensures |r| == |us|
  {
    seq(|us|, i requires 0 <= i < |us| => Write(us[i]))
  }

  ghost predicate HasUnit(us: seq<MemoryUnit>, x: Id) {
    exists i :: 0 <= i < |us| && us[i].id == x
  }

  /** The rows are exactly these units. */
  ghost predicate RowsAre(kv: map<Id, MemoryUnit>, us: seq<MemoryUnit>) {
    && (forall i :: 0 <= i < |us| ==> us[i].id in kv && kv[us[i].id] == us[i])
    && (forall x :: x in kv ==> HasUnit(us, x))
  }

  /** Exactly the live units are logged, without the keys that enrichment adds. */
  ghost predicate LogIs(log: map<Id, MemoryUnit>, kv: map<Id, MemoryUnit>) {
    && (forall x :: x in log <==> x in kv)
    && (forall x :: x in log ==> log[x] == kv[x].(enrichedKeys := []))
  }

  /** The store holds exactly these units, each live and logged as it was written. */
  ghost predicate Written(t: Tables, us: seq<MemoryUnit>) {
    OverlayAgrees(t) && RowsAre(t.kv, us) && LogIs(t.log, t.kv)
  }

  lemma AddRow(kv: map<Id, MemoryUnit>, us: seq<MemoryUnit>, u: MemoryUnit)
    requires RowsAre(kv, us) && UniqueIds(us + [u])
    ensures u.id !in kv && RowsAre(kv[u.id := u], us + [u])
  {
    var all := us + [u];
    forall i | 0 <= i < |us| ensures us[i].id != u.id {
      assert all[i].id != all[|us|].id;
    }
    forall x | x in kv[u.id := u] ensures HasUnit(all, x) {
      if x == u.id {
        assert all[|us|].id == x;
      } else {
        var k :| 0 <= k < |us| && us[k].id == x;
        assert all[k].id == x;
      }
    }
  }

  lemma WriteShape(p: Tables, u: MemoryUnit)
    requires u.id !in p.log
    ensures var r := WriteStep(p, u, false);
            && r.kv == p.kv[u.id := u] && r.overlay == p.overlay[u.id := u.links]
            && r.log == p.log[u.id := u.(enrichedKeys := [])]
  {
  }

  lemma AddLogged(log: map<Id, MemoryUnit>, kv: map<Id, MemoryUnit>, u: MemoryUnit)
    requires LogIs(log, kv)
    ensures LogIs(log[u.id := u.(enrichedKeys := [])], kv[u.id := u])
  {
  }

  lemma WriteAdds(p: Tables, us: seq<MemoryUnit>, u: MemoryUnit, r: Tables)
    requires Written(p, us) && UniqueIds(us + [u]) && r == WriteStep(p, u, false)
    ensures Written(r, us + [u])
  {
    AddRow(p.kv, us, u);
    AddLogged(p.log, p.kv, u);
    WriteShape(p, u);
    RowPut(p, r, u);
  }

  lemma RowPut(p: Tables, r: Tables, u: MemoryUnit)
    requires OverlayAgrees(p) && r.kv == p.kv[u.id := u] && r.overlay == p.overlay[u.id := u.links]
    ensures OverlayAgrees(r)
  {
    assert r.overlay.Keys == r.kv.Keys;
  }

  // ----- runs as functions of the operations -----

  ghost predicate RunsOn(run: seq<Op> -> Tables, ops: seq<Op>, op: Op) {
    run(ops + [op]) == Step(run(ops), op)
  }

  /** `run` gives the state that a sequence of operations leads to from the empty store. */
  ghost predicate IsRun(run: seq<Op> -> Tables) {
    run([]) == EMPTY && forall ops: seq<Op>, op: Op :: RunsOn(run, ops, op)
  }

  ghost function Runs(): seq<Op> -> Tables {
    (ops: seq<Op>) => Run(EMPTY, ops)
  }

  lemma RunsIsRun()
    ensures IsRun(Runs())
  {
    forall ops: seq<Op>, op: Op ensures RunsOn(Runs(), ops, op) {
      RunThen(ops, op);
    }
  }

  lemma RunThen(ops: seq<Op>, op: Op)
    ensures Run(EMPTY, ops + [op]) == Step(Run(EMPTY, ops), op)
  {
    assert (ops + [op])[..|ops|] == ops;
  }

  lemma {:induction false} WritesStore(run: seq<Op> -> Tables, us: seq<MemoryUnit>)
    requires IsRun(run) && UniqueIds(us)
    ensures Written(run(Writes(us)), us)
  {
    if us == [] {
      assert Writes(us) == [];
    } else {
      var init, u := us[..|us| - 1], us[|us| - 1];
      WritesStore(run, init);
      assert us == init + [u] && Writes(us) == Writes(init) + [Write(u)];
      assert RunsOn(run, Writes(init), Write(u));
      WriteAdds(run(Writes(init)), init, u, run(Writes(us)));
    }
  }

  lemma WrittenIsLoad(t: Tables, us: seq<MemoryUnit>)
    requires Written(t, us) && UniqueIds(us)
    ensures IsLoad(us, t.kv) && RowsSound(t)
  {
    forall x | x in t.kv ensures t.kv[x].id == x {
      var i :| 0 <= i < |us| && us[i].id == x;
    }
    forall u: MemoryUnit ensures u in us <==> u.id in t.kv && t.kv[u.id] == u {
      if u.id in t.kv && t.kv[u.id] == u {
        var i :| 0 <= i < |us| && us[i].id == u.id;
      }
    }
  }

  // ----- batch deletes -----

  predicate LinksTo(u: MemoryUnit, id: Id) {
    exists l :: l in u.links && l.target == id
  }

  lemma ForwardLinkBreaks(t: Tables, a: Id, b: Id)
    requires OverlayAgrees(t) && a in t.kv && b in t.kv && a != b && LinksTo(t.kv[a], b)
    ensures !OverlayAgrees(DeleteStep(t, [a, b]))
  {
    var ids := [a, b];
    assert Effective(t.kv, ids, 0) && Effective(t.kv, ids, 1) && Points(t.kv, ids[0], ids[1]);
    DeleteKeepsOverlayExactly(t, ids);
  }

  lemma ForwardDeleteIn(run: seq<Op> -> Tables, u: MemoryUnit, v: MemoryUnit)
    requires IsRun(run) && u.id != v.id && LinksTo(v, u.id)
    ensures !OverlayAgrees(run(Writes([u, v]) + [Delete([v.id, u.id])]))
  {
    var us := [u, v];
    WritesStore(run, us);
    assert RunsOn(run, Writes(us), Delete([v.id, u.id]));
    assert us[0] == u && us[1] == v;
    ForwardLinkBreaks(run(Writes(us)), v.id, u.id);
  }

  /** Deleting a memory and then, in the same call, one it linked to leaves an overlay row without a memory. */
  lemma ForwardDeleteLeavesRow(u: MemoryUnit, v: MemoryUnit)
    requires u.id != v.id && LinksTo(v, u.id)
    ensures !OverlayAgrees(Run(EMPTY, Writes([u, v]) + [Delete([v.id, u.id])]))
  {
    RunsIsRun();
    ForwardDeleteIn(Runs(), u, v);
  }

  lemma TwoHitsDangle(t: Tables, x: Id, a: Id, b: Id)
    requires x in t.kv && a in t.kv && b in t.kv && x != a && x != b && a != b && LinksTo(t.kv[x], a) &&
             LinksTo(t.kv[x], b)
    ensures !NoDangling(t, DeleteStep(t, [a, b]), [a, b])
  {
    var ids := [a, b];
    assert ids[0] == a && ids[1] == b;
    assert Points(t.kv, x, a) && Points(t.kv, x, b) && a in ids && b in ids;
    assert !AtMostOneHit(t.kv, x, ids);
    NoDanglingExactly(t, ids);
  }

  lemma BatchDeleteIn(run: seq<Op> -> Tables, u: MemoryUnit, v: MemoryUnit, w: MemoryUnit)
    requires IsRun(run) && UniqueIds([u, v, w]) && LinksTo(w, u.id) && LinksTo(w, v.id)
    ensures !NoDangling(run(Writes([u, v, w])), run(Writes([u, v, w]) + [Delete([u.id, v.id])]), [u.id, v.id])
  {
    var us := [u, v, w];
    WritesStore(run, us);
    assert RunsOn(run, Writes(us), Delete([u.id, v.id]));
    assert us[0] == u && us[1] == v && us[2] == w;
    TwoHitsDangle(run(Writes(us)), w.id, u.id, v.id);
  }

  /** A memory with links to two deleted ones keeps the first of them: the second pass writes it back. */
  lemma BatchDeleteLeavesLink(u: MemoryUnit, v: MemoryUnit, w: MemoryUnit)
    requires UniqueIds([u, v, w]) && LinksTo(w, u.id) && LinksTo(w, v.id)
    ensures var t := Run(EMPTY, Writes([u, v, w]));
            !NoDangling(t, Run(EMPTY, Writes([u, v, w]) + [Delete([u.id, v.id])]), [u.id, v.id])
  {
    RunsIsRun();
    BatchDeleteIn(Runs(), u, v, w);
  }

  /** Whatever was deleted comes back with the next reindex. */
  lemma DeletedComesBack(ops: seq<Op>, ids: seq<Id>, id: Id, restage: Restaging)
    requires id in ids && id in Run(EMPTY, ops).kv
    ensures id !in Run(EMPTY, ops + [Delete(ids)]).kv
    ensures id in Run(EMPTY, ops + [Delete(ids)] + [Reindex(restage)]).kv
  {
    var t := Run(EMPTY, ops);
    RunsKeepSound(ops);
    RunThen(ops, Delete(ids));
    DeleteAllKeepsSound(t, t.kv, ids);
    RunsKeepSound(ops + [Delete(ids)]);
    StepKeepsSound(t, Delete(ids));
    ReindexRevivesLogged(ops + [Delete(ids)], restage);
  }

  // ----- a confirmation of many memories -----

  lemma {:induction false} RowWithin(a: Id, rest: seq<Id>, at: int, w: real, ids: seq<Id>)
    requires a in ids && forall x :: x in rest ==> x in ids
    ensures forall e :: e in PairRow(a, rest, at, w) ==> e.id in ids
  {
    if rest != [] {
      RowWithin(a, rest[1..], at, w, ids);
    }
  }

  lemma {:induction false} RecordWithin(used: seq<Id>, at: int, w: real, ids: seq<Id>)
    requires forall x :: x in used ==> x in ids
    ensures forall e :: e in RecordLog(used, at, w) ==> e.id in ids
  {
    if used != [] {
      RowWithin(used[0], used[1..], at, w, ids);
      RecordWithin(used[1..], at, w, ids);
    }
  }

  lemma PairsWithin(pairs: seq<CoPair>, ids: seq<Id>, at: int, w: real, window: int)
    requires ArePairsOf(pairs, RecordLog(ids, at, w), window)
    ensures forall p :: p in pairs ==> p.b in ids
  {
    var log := RecordLog(ids, at, w);
    RecordWithin(ids, at, w, ids);
    forall p | p in pairs ensures p.b in ids {
      assert HasPair(pairs, (p.a, p.b));
      var i, j :| 0 <= i < j < |log| && ActivationLogs.Hits(log[i], log[j], window, (p.a, p.b));
      assert log[i] in log && log[j] in log;
    }
  }

  lemma CreatedWithin(id: Id, input: CycleInput, ids: seq<Id>)
    requires forall p :: p in input.pairs ==> p.b in ids
    ensures forall l :: l in Reinforced(id, [], input) ==> l.kind == Causal && l.target in ids
  {
    var news := CoLinks(input.pairs, input.now);
    AddLinksShape(id, ReinforceAll([], input.pairs, input.now), news);
    CoLinksMembers(input.pairs, input.now);
    forall l | (id, l) in news ensures l.kind == Causal && l.target in ids {
      var p :| p in input.pairs && IsCoLink((id, l), p, input.now);
    }
  }

  /** A memory without links is given links to the confirmed memories only. */
  lemma NewLinksWithin(id: Id, input: CycleInput, curve: Curve, ids: seq<Id>)
    requires forall p :: p in input.pairs ==> p.b in ids
    ensures forall l :: l in Decayed(id, [], input, curve) ==> l.kind == Causal && l.target in ids
  {
    var r, w := Reinforced(id, [], input), Weakened(id, [], input);
    CreatedWithin(id, input, ids);
    ReinforcedInRange(id, [], input);
    WeakenedSame(id, r, input.rejected, input.now);
    DecayedRetained(w, input.now, curve);
    forall l | l in w ensures l.kind == Causal && l.target in ids {
      var i :| 0 <= i < |w| && w[i] == l;
      assert SameEdge(w[i], r[i]) && r[i] in r;
    }
  }

  lemma NewLinksFit(id: Id, input: CycleInput, curve: Curve, ids: seq<Id>)
    requires forall p :: p in input.pairs ==> p.b in ids
    ensures |Decayed(id, [], input, curve)| <= |ids|
  {
    var d := Decayed(id, [], input, curve);
    NewLinksWithin(id, input, curve, ids);
    CycleKeepsUnique(id, [], input, curve);
    var targets := seq(|d|, i requires 0 <= i < |d| => d[i].target);
    forall i, j | 0 <= i < j < |d| ensures targets[i] != targets[j] {
      assert d[i] in d && d[j] in d && !SameEdge(d[i], d[j]);
    }
    forall x | x in targets ensures x in ids {
      var i :| 0 <= i < |d| && targets[i] == x;
      assert d[i] in d;
    }
    DistinctFits(targets, ids);
  }

  lemma ConfirmedLoops(u: MemoryUnit, input: CycleInput, curve: Curve, ids: seq<Id>, at: int, window: int)
    requires u.links == [] && u.id in ids && Distinct(ids) && 4 <= |ids| <= DEGREE_LIMIT && window > 0
    requires IsCurve(curve) && ArePairsOf(input.pairs, RecordLog(ids, at, 1.0), window)
    ensures !NoSelfLoop(u.id, Consolidated(u, input, curve, []).links)
  {
    OneConfirmationMakesSelfLoops(ids, at, window, u.id, [], input.pairs, input.now);
    SelfLoopExactly(u.id, [], input.pairs, input.now);
    PairsWithin(input.pairs, ids, at, 1.0, window);
    NewLinksFit(u.id, input, curve, ids);
    CycleSettlesExactly(u.id, [], input, curve);
    MarkKeepsRest(CycleUnit(u, input, curve), []);
    SelfLoopAfterRedirection(u.id, CycleLinks(u.id, [], input, curve), []);
  }

  function IdsOf(us: seq<MemoryUnit>): (ids: seq<Id>)
    ensures |ids| == |us| && forall i :: 0 <= i < |us| ==> ids[i] == us[i].id
  {
    seq(|us|, i requires 0 <= i < |us| => us[i].id)
  }

  /** The pairs are those of the confirmation of these memories, and nothing else. */
  ghost predicate ConfirmsAll(pairs: seq<CoPair>, us: seq<MemoryUnit>, at: int, window: int) {
    ArePairsOf(pairs, LogOf([FeedbackRecord(UserConfirmedCorrect, IdsOf(us), at)]), window)
  }

  lemma LogOfOne(ids: seq<Id>, at: int)
    ensures LogOf([FeedbackRecord(UserConfirmedCorrect, ids, at)]) == RecordLog(ids, at, 1.0)
  {
    var r := FeedbackRecord(UserConfirmedCorrect, ids, at);
    assert [r][..0] == [] && LogOf([]) == [];
  }

  lemma ConfirmedUnit(us: seq<MemoryUnit>, u: MemoryUnit, input: CycleInput, curve: Curve, at: int, window: int)
    requires UniqueIds(us) && u in us && u.links == [] && 4 <= |us| <= DEGREE_LIMIT && window > 0
    requires IsCurve(curve) && ConfirmsAll(input.pairs, us, at, window)
    ensures !NoSelfLoop(u.id, Consolidated(u, input, curve, []).links)
  {
    var ids := IdsOf(us);
    var i :| 0 <= i < |us| && us[i] == u;
    assert ids[i] in ids;
    LogOfOne(ids, at);
    ConfirmedLoops(u, input, curve, ids, at, window);
  }

  lemma RowConsolidated(t: Tables, u: MemoryUnit, input: CycleInput, curve: Curve, summaries: seq<Summary>,
                        stage: Staging)
    requires RowsSound(t) && FreshFor(summaries, t) && u.id in t.kv && t.kv[u.id] == u
    ensures var r := ConsolidateStep(t, input, curve, summaries, stage);
            u.id in r.kv && r.kv[u.id] == Consolidated(u, input, curve, summaries)
  {
    KvAfterConsolidation(t, input, curve, summaries, stage);
  }

  lemma WrittenRow(t: Tables, us: seq<MemoryUnit>, u: MemoryUnit)
    requires Written(t, us) && UniqueIds(us) && u in us
    ensures RowsSound(t) && u.id in t.kv && t.kv[u.id] == u
  {
    WrittenIsLoad(t, us);
  }

  lemma ConsolidatedIn(run: seq<Op> -> Tables, us: seq<MemoryUnit>, u: MemoryUnit, input: CycleInput, curve: Curve,
                       stage: Staging)
    requires IsRun(run) && UniqueIds(us) && u in us
    ensures var r := run(Writes(us) + [Consolidate(input, curve, [], stage)]);
            u.id in r.kv && r.kv[u.id] == Consolidated(u, input, curve, [])
  {
    var op := Consolidate(input, curve, [], stage);
    WritesStore(run, us);
    WrittenRow(run(Writes(us)), us, u);
    RunConsolidates(run, Writes(us), op);
    RowConsolidated(run(Writes(us)), u, input, curve, [], stage);
  }

  /** Four to sixty-four memories are written, confirmed together and consolidated: each one without links loops. */
  lemma ConfirmationMakesLoops(us: seq<MemoryUnit>, u: MemoryUnit, input: CycleInput, curve: Curve, at: int,
                               window: int, stage: Staging)
    requires UniqueIds(us) && u in us && u.links == [] && 4 <= |us| <= DEGREE_LIMIT && window > 0
    requires IsCurve(curve) && ConfirmsAll(input.pairs, us, at, window)
    ensures var r := Run(EMPTY, Writes(us) + [Consolidate(input, curve, [], stage)]);
            u.id in r.kv && !NoSelfLoop(u.id, r.kv[u.id].links)
  {
    RunsIsRun();
    ConfirmedUnit(us, u, input, curve, at, window);
    ConsolidatedIn(Runs(), us, u, input, curve, stage);
  }

  // ----- memories of the same text -----

  const TEXT: set<string> := {"note"}

  /** A plain unimportant memory; all of them say the same. */
  function Alike(id: Id): MemoryUnit {
    MemoryUnit(id, TEXT, 0.0, 0.5, [], false, Active, [], [], [])
  }

  function Alikes(n: nat): (r: seq<MemoryUnit>)
    ensures |r| == n
  {
    seq(n, i requires 0 <= i < n => Alike(i))
  }

  /** Their candidates, in order. */
  function AlikeTexts(n: nat): (r: seq<Candidate>)
    ensures |r| == n
  {
    seq(n, i requires 0 <= i < n => CandidateOf(Alike(i)))
  }

  /** Parameters under which `n` such memories make a cluster. */
  predicate Clusters(n: nat, params: PlanParams) {
    n >= 7 && n >= params.trigger && params.similarity <= 1.0 && params.lowImportance > 0.0
  }

  lemma SameTextJaccard()
    ensures TextJaccard(TEXT, TEXT) == 1.0
  {
    assert TEXT + TEXT == TEXT && TEXT * TEXT == TEXT && |TEXT| == 1;
  }

  lemma {:induction false} AllLow(g: seq<Candidate>, low: real)
    requires forall c :: c in g ==> c.importance < low
    ensures LowCount(g, low) == |g|
  {
    if g != [] {
      assert g[|g| - 1] in g;
      AllLow(g[..|g| - 1], low);
    }
  }

  lemma OneGroup(cs: seq<Candidate>, sim: Similarity, threshold: real)
    requires cs != [] && forall c :: c in cs ==> Near(cs[0], c, sim, threshold)
    ensures Groups(cs, sim, threshold) == [cs]
  {
    FilterAll(cs[1..], Joins(cs[0], sim, threshold));
    FilterNone(cs[1..], Stays(cs[0], sim, threshold));
    assert [cs[0]] + cs[1..] == cs;
  }

  lemma AlikeGroup(n: nat, params: PlanParams)
    requires Clusters(n, params)
    ensures Groups(AlikeTexts(n), TextJaccard, params.similarity) == [AlikeTexts(n)]
    ensures BigEnough(AlikeTexts(n), params) && Confident(Ids(AlikeTexts(n)))
    ensures LowCount(AlikeTexts(n), params.lowImportance) == n
  {
    var cs := AlikeTexts(n);
    SameTextJaccard();
    OneGroup(cs, TextJaccard, params.similarity);
    AllLow(cs, params.lowImportance);
    ConfidentFromSeven(Ids(cs));
  }

  /** One group that passes both rules and the gate becomes the one summary. */
  lemma OneSummary(units: seq<MemoryUnit>, g: seq<Candidate>, sim: Similarity, params: PlanParams,
                   gate: seq<Id> -> bool, generate: nat -> Id)
    requires Groups(Candidates(units), sim, params.similarity) == [g] && BigEnough(g, params) && gate(Ids(g))
    ensures SummariesFor(Plan(units, sim, params), gate, generate) == [Summary(generate(0), Ids(g))]
  {
    assert [g][1..] == [] && Filter([g][1..], Qualifying(params)) == [];
    assert Filter([g], Qualifying(params)) == [g];
    var plan := Plan(units, sim, params);
    assert plan == [Ids(g)] && plan[..0] == [];
    assert SummariesFor(plan[..0], gate, generate) == [];
  }

  /** Whatever else is stored without text, the plan is the one cluster of all alike memories. */
  lemma AlikePlan(units: seq<MemoryUnit>, n: nat, params: PlanParams, generate: nat -> Id)
    requires UniqueIds(units) && Unmarked(units) && Clusters(n, params)
    requires forall c: Candidate :: c.tokens != {} ==> (c in Texts(units) <==> c in AlikeTexts(n))
    ensures Candidates(units) == AlikeTexts(n)
    ensures SummariesFor(Plan(units, TextJaccard, params), Confident, generate) ==
            [Summary(generate(0), Ids(AlikeTexts(n)))]
  {
    UnmarkedCandidates(units);
    assert forall c :: c in AlikeTexts(n) ==> c.tokens == TEXT && TEXT != {};
    AscendingUnique(Candidates(units), AlikeTexts(n));
    AlikeGroup(n, params);
    OneSummary(units, AlikeTexts(n), TextJaccard, params, Confident, generate);
  }

  lemma CycleTexts(us: seq<MemoryUnit>, input: CycleInput, curve: Curve)
    ensures Texts(CycleUnits(us, input, curve)) == Texts(us)
    ensures Unmarked(us) ==> Unmarked(CycleUnits(us, input, curve))
  {
    var cycled := CycleUnits(us, input, curve);
    forall i | 0 <= i < |us|
      ensures CandidateOf(cycled[i]) == CandidateOf(us[i]) && us[i] in us && cycled[i] in cycled {
    }
    forall c ensures c in Texts(cycled) <==> c in Texts(us) {
      if c in Texts(cycled) {
        var u :| u in cycled && c == CandidateOf(u);
        var i :| 0 <= i < |cycled| && cycled[i] == u;
      }
      if c in Texts(us) {
        var u :| u in us && c == CandidateOf(u);
        var i :| 0 <= i < |us| && us[i] == u;
      }
    }
  }

  lemma AlikesTexts(n: nat)
    ensures forall c :: c in Texts(Alikes(n)) <==> c in AlikeTexts(n)
    ensures UniqueIds(Alikes(n)) && Unmarked(Alikes(n)) && forall u :: u in Alikes(n) ==> u.id < n
  {
    forall c ensures c in Texts(Alikes(n)) <==> c in AlikeTexts(n) {
      if c in AlikeTexts(n) {
        var i :| 0 <= i < n && AlikeTexts(n)[i] == c;
        assert Alikes(n)[i] in Alikes(n);
      }
      if c in Texts(Alikes(n)) {
        var u :| u in Alikes(n) && c == CandidateOf(u);
        var i :| 0 <= i < n && Alikes(n)[i] == u;
        assert AlikeTexts(n)[i] == c;
      }
    }
  }

  // ----- a collision by redirection -----

  /** A textless memory with one causal link to each of the first two alike memories. */
  function Hub(id: Id): MemoryUnit {
    Alike(id).(tokens := {}, links := [HubLink(0), HubLink(1)])
  }

  function HubLink(target: Id): Link {
    Link(target, Causal, 0.5, 0.5, None, 0, None, 0, Confirmed)
  }

  const NO_FEEDBACK: CycleInput := CycleInput([], [], 0)

  lemma HubKeepsLinks(id: Id, curve: Curve)
    ensures CycleLinks(id, Hub(id).links, NO_FEEDBACK, curve) == Hub(id).links
  {
    var links := Hub(id).links;
    QuietCycle(id, links, NO_FEEDBACK, curve);
    assert links[..1] == [HubLink(0)] && links[..1][..0] == [];
    assert DecayLinks(links[..1], 0, curve) == [HubLink(0)];
  }

  function WithHub(n: nat): (r: seq<MemoryUnit>)
    ensures |r| == n + 1 && r[n] == Hub(n)
  {
    Alikes(n) + [Hub(n)]
  }

  lemma HubTexts(n: nat)
    ensures UniqueIds(WithHub(n)) && Unmarked(WithHub(n)) && (forall u :: u in WithHub(n) ==> u.id <= n)
    ensures forall c: Candidate :: c.tokens != {} ==> (c in Texts(WithHub(n)) <==> c in AlikeTexts(n))
  {
    AlikesTexts(n);
    assert Texts(WithHub(n)) == Texts(Alikes(n)) + {CandidateOf(Hub(n))};
  }

  lemma IntoOne(s: Summary)
    ensures forall x :: x in s.covers ==> x in CompressedInto([s]) && CompressedInto([s])[x] == s.id
  {
    assert [s][..0] == [];
    assert CompressedInto([s]) == InsertCovers(map[], s.covers, s.id);
    InsertCoversAt(map[], s.covers, s.id);
  }

  /** The links of the hub, redirected into the one summary, have the same target and type. */
  lemma HubCollides(id: Id, s: Summary, curve: Curve)
    requires 0 in s.covers && 1 in s.covers
    ensures !UniqueLinks(Consolidated(Hub(id), NO_FEEDBACK, curve, [s]).links)
  {
    IntoOne(s);
    HubKeepsLinks(id, curve);
    MarkKeepsRest(CycleUnit(Hub(id), NO_FEEDBACK, curve), [s]);
    var r := RedirectLinks(Hub(id).links, CompressedInto([s]));
    assert r[0].target == s.id && r[1].target == s.id;
    assert SameEdge(r[0], r[1]);
  }

  lemma FreshAbove(t: Tables, us: seq<MemoryUnit>, n: nat, s: Summary)
    requires Written(t, us) && (forall u :: u in us ==> u.id <= n) && s.id > n
    ensures FreshFor([s], t)
  {
    forall x | x in t.log ensures x <= n {
      var i :| 0 <= i < |us| && us[i].id == x;
      assert us[i] in us;
    }
  }

  lemma HubEndsDouble(t: Tables, n: nat, s: Summary, curve: Curve, stage: Staging)
    requires Written(t, WithHub(n)) && s.id > n && 0 in s.covers && 1 in s.covers
    ensures var r := ConsolidateStep(t, NO_FEEDBACK, curve, [s], stage); n in r.kv && !UniqueLinks(r.kv[n].links)
  {
    HubTexts(n);
    FreshAbove(t, WithHub(n), n, s);
    WrittenIsLoad(t, WithHub(n));
    KvAfterConsolidation(t, NO_FEEDBACK, curve, [s], stage);
    assert WithHub(n)[n].id in t.kv;
    HubCollides(n, s, curve);
  }

  /** What the engine plans for these memories. */
  ghost function PlannedFor(us: seq<MemoryUnit>, curve: Curve, params: PlanParams, generate: nat -> Id): seq<Summary> {
    SummariesFor(Plan(CycleUnits(us, NO_FEEDBACK, curve), TextJaccard, params), Confident, generate)
  }

  lemma PlannedAlike(us: seq<MemoryUnit>, n: nat, curve: Curve, params: PlanParams, generate: nat -> Id)
    requires UniqueIds(us) && Unmarked(us) && Clusters(n, params)
    requires forall c: Candidate :: c.tokens != {} ==> (c in Texts(us) <==> c in AlikeTexts(n))
    ensures Candidates(CycleUnits(us, NO_FEEDBACK, curve)) == AlikeTexts(n)
    ensures PlannedFor(us, curve, params, generate) == [Summary(generate(0), Ids(AlikeTexts(n)))]
  {
    CycleTexts(us, NO_FEEDBACK, curve);
    CycleKeepsIds(us, NO_FEEDBACK, curve);
    AlikePlan(CycleUnits(us, NO_FEEDBACK, curve), n, params, generate);
  }

  lemma HubPlanned(t: Tables, r: Tables, n: nat, params: PlanParams, curve: Curve, generate: nat -> Id, stage: Staging)
    requires Written(t, WithHub(n)) && Clusters(n, params) && generate(0) > n
    requires r == ConsolidateStep(t, NO_FEEDBACK, curve, PlannedFor(WithHub(n), curve, params, generate), stage)
    ensures n in r.kv && !UniqueLinks(r.kv[n].links)
  {
    HubPlan(n, curve, params, generate);
    FirstTwoCovered(n);
    HubEndsDouble(t, n, Summary(generate(0), Ids(AlikeTexts(n))), curve, stage);
  }

  lemma HubPlan(n: nat, curve: Curve, params: PlanParams, generate: nat -> Id)
    requires Clusters(n, params)
    ensures PlannedFor(WithHub(n), curve, params, generate) == [Summary(generate(0), Ids(AlikeTexts(n)))]
  {
    HubTexts(n);
    PlannedAlike(WithHub(n), n, curve, params, generate);
  }

  lemma FirstTwoCovered(n: nat)
    requires n >= 2
    ensures 0 in Ids(AlikeTexts(n)) && 1 in Ids(AlikeTexts(n))
  {
    var covers := Ids(AlikeTexts(n));
    assert covers[0] == 0 && covers[1] == 1;
  }

  lemma UniqueStored(n: nat)
    ensures UniqueIds(WithHub(n)) && UniqueIds(Alikes(n))
  {
  }

  lemma RedirectionCollidesIn(run: seq<Op> -> Tables, n: nat, params: PlanParams, curve: Curve, generate: nat -> Id,
                              stage: Staging, summaries: seq<Summary>)
    requires IsRun(run) && Clusters(n, params) && generate(0) > n &&
             summaries == PlannedFor(WithHub(n), curve, params, generate)
    ensures var t := run(Writes(WithHub(n)) + [Consolidate(NO_FEEDBACK, curve, summaries, stage)]);
            n in t.kv && !UniqueLinks(t.kv[n].links)
  {
    var us := WithHub(n);
    var op := Consolidate(NO_FEEDBACK, curve, summaries, stage);
    UniqueStored(n);
    WritesStore(run, us);
    RunConsolidates(run, Writes(us), op);
    HubPlanned(run(Writes(us)), run(Writes(us) + [op]), n, params, curve, generate, stage);
  }

  /**
   Seven or more memories of one text are summarised, and a memory linked to two of them ends with two equal edges.
   */
  lemma RedirectionCollides(n: nat, params: PlanParams, curve: Curve, generate: nat -> Id, stage: Staging)
    requires Clusters(n, params) && generate(0) > n
    ensures UniqueLinks(Hub(n).links)
    ensures var summaries := PlannedFor(WithHub(n), curve, params, generate);
            var t := Run(EMPTY, Writes(WithHub(n)) + [Consolidate(NO_FEEDBACK, curve, summaries, stage)]);
            n in t.kv && !UniqueLinks(t.kv[n].links)
  {
    RunsIsRun();
    RedirectionCollidesIn(Runs(), n, params, curve, generate, stage, PlannedFor(WithHub(n), curve, params, generate));
  }

  // ----- summarising again after a reindex -----

  /** Unmarked memories make a plain store. */
  lemma WrittenIsPlain(t: Tables, us: seq<MemoryUnit>)
    requires Written(t, us) && UniqueIds(us) && Unmarked(us)
    ensures Plain(t)
  {
    WrittenIsLoad(t, us);
    forall x | x in t.kv ensures PlainRow(t.kv[x], t.log[x]) {
      var i :| 0 <= i < |us| && us[i].id == x;
      assert us[i] in us;
    }
    assert t.log.Keys == t.kv.Keys;
  }

  lemma WrittenBelow(t: Tables, us: seq<MemoryUnit>, n: nat)
    requires Written(t, us) && forall u :: u in us ==> u.id < n
    ensures forall x :: x in t.log ==> x < n
  {
    forall x | x in t.log ensures x < n {
      var i :| 0 <= i < |us| && us[i].id == x;
      assert us[i] in us;
    }
  }

  lemma AlikesPlain(t: Tables, n: nat)
    requires Written(t, Alikes(n))
    ensures Plain(t) && IsLoad(Alikes(n), t.kv) && forall x :: x in t.log ==> x < n
  {
    AlikesTexts(n);
    WrittenIsLoad(t, Alikes(n));
    WrittenIsPlain(t, Alikes(n));
    WrittenBelow(t, Alikes(n), n);
  }

  lemma AlikesSpare(n: nat, params: PlanParams, curve: Curve, generate: nat -> Id)
    requires Clusters(n, params)
    ensures SpareForSummaries(CycleUnits(Alikes(n), NO_FEEDBACK, curve), TextJaccard, params, Confident, generate)
    ensures PlannedFor(Alikes(n), curve, params, generate) != []
  {
    AlikesTexts(n);
    PlannedAlike(Alikes(n), n, curve, params, generate);
    AlikeGroup(n, params);
  }

  /** Whatever units were summarised and can spare it, they are summarised again. */
  lemma SummarisedAgain(t: Tables, t1: Tables, t2: Tables, us: seq<MemoryUnit>, params: PlanParams, curve: Curve,
                        generate: nat -> Id, summaries: seq<Summary>, stage: Staging, restage: Restaging,
                        loaded: seq<MemoryUnit>, next: CycleInput, nextCurve: Curve, generateNext: nat -> Id)
    requires Plain(t) && IsLoad(us, t.kv) && Faithful(restage) && summaries != []
    requires Injective(generate) && forall k: nat, x :: x in t.log ==> x < generate(k)
    requires SpareForSummaries(CycleUnits(us, NO_FEEDBACK, curve), TextJaccard, params, Confident, generate)
    requires summaries == PlannedFor(us, curve, params, generate)
    requires t1 == ConsolidateStep(t, NO_FEEDBACK, curve, summaries, stage)
    requires t2 == ReindexStep(t1, restage) && IsLoad(loaded, t2.kv)
    ensures SummariesFor(Plan(CycleUnits(loaded, next, nextCurve), TextJaccard, params), Confident, generateNext) != []
  {
    ConfidenceGrows();
    StableAcrossReindexExactly(t, us, NO_FEEDBACK, curve, TextJaccard, params, Confident, generate, stage,
                               restage, loaded, next, nextCurve, generateNext);
  }

  /** The states after writing, consolidating and reindexing. */
  lemma AlikesAgain(t: Tables, t1: Tables, t2: Tables, n: nat, us: seq<MemoryUnit>, params: PlanParams, curve: Curve,
                    generate: nat -> Id, summaries: seq<Summary>, stage: Staging, restage: Restaging,
                    loaded: seq<MemoryUnit>, next: CycleInput, nextCurve: Curve, generateNext: nat -> Id)
    requires us == Alikes(n) && Written(t, us) && Clusters(n, params) && Faithful(restage)
    requires Injective(generate) && forall k: nat :: generate(k) > n
    requires summaries == PlannedFor(us, curve, params, generate)
    requires t1 == ConsolidateStep(t, NO_FEEDBACK, curve, summaries, stage)
    requires t2 == ReindexStep(t1, restage) && IsLoad(loaded, t2.kv)
    ensures SummariesFor(Plan(CycleUnits(loaded, next, nextCurve), TextJaccard, params), Confident, generateNext) != []
  {
    AlikesPlain(t, n);
    AlikesSpare(n, params, curve, generate);
    SummarisedAgain(t, t1, t2, us, params, curve, generate, summaries, stage, restage, loaded, next, nextCurve,
                    generateNext);
  }

  lemma ThreeStates(run: seq<Op> -> Tables, n: nat, first: Op, restage: Restaging)
    returns (t: Tables, t1: Tables, t2: Tables)
    requires IsRun(run) && first.Consolidate?
    ensures Written(t, Alikes(n)) && t1 == ConsolidateStep(t, first.input, first.curve, first.summaries, first.stage)
    ensures t2 == ReindexStep(t1, restage) && t2 == run(Writes(Alikes(n)) + [first] + [Reindex(restage)])
  {
    UniqueStored(n);
    WritesStore(run, Alikes(n));
    var writes := Writes(Alikes(n));
    t, t1, t2 := run(writes), run(writes + [first]), run(writes + [first] + [Reindex(restage)]);
    RunConsolidates(run, writes, first);
    RunReindexes(run, writes + [first], restage);
  }

  lemma RunConsolidates(run: seq<Op> -> Tables, ops: seq<Op>, op: Op)
    requires IsRun(run) && op.Consolidate?
    ensures run(ops + [op]) == ConsolidateStep(run(ops), op.input, op.curve, op.summaries, op.stage)
  {
    assert RunsOn(run, ops, op);
  }

  lemma RunReindexes(run: seq<Op> -> Tables, ops: seq<Op>, restage: Restaging)
    requires IsRun(run)
    ensures run(ops + [Reindex(restage)]) == ReindexStep(run(ops), restage)
  {
    assert RunsOn(run, ops, Reindex(restage));
  }

  /**
   Seven or more memories of one text, consolidated once, then reindexed: the next consolidation summarises them
   once more, although they already have a summary.
   */
  lemma ReindexSummarisesAgain(n: nat, params: PlanParams, curve: Curve, generate: nat -> Id, stage: Staging,
                               restage: Restaging,
                               loaded: seq<MemoryUnit>, next: CycleInput, nextCurve: Curve, generateNext: nat -> Id)
    requires Clusters(n, params) && Faithful(restage) && Injective(generate) && forall k: nat :: generate(k) > n
    requires var first := Consolidate(NO_FEEDBACK, curve, PlannedFor(Alikes(n), curve, params, generate), stage);
             IsLoad(loaded, Run(EMPTY, Writes(Alikes(n)) + [first] + [Reindex(restage)]).kv)
    ensures SummariesFor(Plan(CycleUnits(loaded, next, nextCurve), TextJaccard, params), Confident, generateNext) != []
  {
    RunsIsRun();
    var first := Consolidate(NO_FEEDBACK, curve, PlannedFor(Alikes(n), curve, params, generate), stage);
    var t, t1, t2 := ThreeStates(Runs(), n, first, restage);
    AlikesAgain(t, t1, t2, n, Alikes(n), params, curve, generate, first.summaries, stage, restage, loaded, next,
                nextCurve, generateNext);
  }
}
