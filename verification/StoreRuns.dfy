/**
 Whole runs of the store: what every sequence of operations keeps, and that consolidating again creates no summary.
 */
module StoreRuns {
  import opened MemoryModel
  import opened Sorting
  import opened ActivationLogs
  import opened Worker
  import opened Decay
  import opened Summaries
  import opened Compression
  import opened StoreTables
  import opened Deletion

  datatype Op =
    | Write(unit: MemoryUnit)
    | Usage(ids: seq<Id>, signal: Signal)
    | Strengthen(source: Id, target: Id, delta: real, now: int)
    | Consolidate(input: CycleInput, curve: Curve, summaries: seq<Summary>, stage: Staging)
    | Reindex(restage: Restaging)
    | Delete(ids: seq<Id>)

  // ----- the log is read in ascending id order -----

  ghost function Smallest(s: set<Id>): (m: Id)
    requires s != {}
    ensures m in s && forall x :: x in s ==> m <= x
  {
    var x :| x in s;
    if s == {x} then
      assert forall y :: y in s ==> y in {x};
      x
    else
      assert s - {x} != {} by {
        assert s == (s - {x}) + {x};
      }
      var m := Smallest(s - {x});
      assert forall y :: y in s ==> y == x || y in s - {x};
      if x < m then x else m
  }

  ghost function AscendingIds(s: set<Id>): (r: seq<Id>)
    ensures Distinct(r) && forall x :: x in r <==> x in s
    ensures forall i, j :: 0 <= i < j < |r| ==> r[i] < r[j]
  {
    if s == {} then [] else [Smallest(s)] + AscendingIds(s - {Smallest(s)})
  }

  ghost function ReindexStep(t: Tables, restage: Restaging): Tables {
    ReindexFrom(t, AscendingIds(t.log.Keys), restage)
  }

  /** A reindex rebuilds sound tables with an agreeing overlay, from an unchanged log whose ids are the live ones. */
  lemma ReindexFacts(t: Tables, restage: Restaging)
    requires forall id :: id in t.log ==> t.log[id].id == id
    ensures var r := ReindexStep(t, restage);
            r.log == t.log && StoreSound(r) && OverlayAgrees(r) && r.kv.Keys == t.log.Keys
  {
    RebuildFacts(t, AscendingIds(t.log.Keys), restage);
  }

  lemma RebuildFacts(t: Tables, order: seq<Id>, restage: Restaging)
    requires Distinct(order) && (forall id :: id in order <==> id in t.log.Keys)
    requires forall id :: id in t.log ==> t.log[id].id == id
    ensures var r := ReindexFrom(t, order, restage);
            r.log == t.log && StoreSound(r) && OverlayAgrees(r) && r.kv.Keys == t.log.Keys
  {
    ReindexRebuilds(t, order, restage);
    var r := ReindexFrom(t, order, restage);
    forall id ensures id in r.kv.Keys <==> id in t.log.Keys {
      assert id in r.kv <==> id in order;
    }
  }

  ghost function Step(t: Tables, op: Op): Tables {
    match op
    case Write(u) => WriteStep(t, u, false)
    case Usage(ids, signal) => UsageStep(t, ids, signal)
    case Strengthen(source, target, delta, now) => StrengthenStep(t, source, target, delta, now)
    case Consolidate(input, curve, summaries, stage) => ConsolidateStep(t, input, curve, summaries, stage)
    case Reindex(restage) => ReindexStep(t, restage)
    case Delete(ids) => DeleteStep(t, ids)
  }

  ghost function Run(t: Tables, ops: seq<Op>): Tables {
    if ops == [] then t else Step(Run(t, ops[..|ops| - 1]), ops[|ops| - 1])
  }

  // ----- index, rows and log over every run -----

  lemma StepKeepsSound(t: Tables, op: Op)
    requires StoreSound(t)
    ensures StoreSound(Step(t, op)) && LogGrows(t, Step(t, op))
  {
    match op
    case Write(u) => WriteKeepsSound(t, u);
    case Usage(ids, signal) => UsageKeeps(t, ids, UsageDelta(signal));
    case Strengthen(source, target, delta, now) => StrengthenKeeps(t, source, target, delta, now);
    case Consolidate(input, curve, summaries, stage) => ConsolidateSound(t, input, curve, summaries, stage);
    case Reindex(restage) => ReindexSound(t, restage);
    case Delete(ids) => DeleteAllKeepsSound(t, t.kv, ids);
  }

  lemma ConsolidateSound(t: Tables, input: CycleInput, curve: Curve, summaries: seq<Summary>, stage: Staging)
    requires StoreSound(t)
    ensures var r := ConsolidateStep(t, input, curve, summaries, stage);
            StoreSound(r) && LogGrows(t, r)
  {
    ConsolidateKeeps(t, input, curve, summaries, stage);
  }

  lemma ReindexSound(t: Tables, restage: Restaging)
    requires StoreSound(t)
    ensures StoreSound(ReindexStep(t, restage)) && LogGrows(t, ReindexStep(t, restage))
  {
    ReindexFacts(t, restage);
  }

  /**
   In every reachable state an id is listed under a key exactly when it is live and the key is one of its keys, posting
   lists are non-empty and duplicate-free, rows carry their id, and every live id is logged.
   */
  lemma {:induction false} RunsKeepSound(ops: seq<Op>)
    ensures StoreSound(Run(EMPTY, ops))
  {
    if ops != [] {
      RunsKeepSound(ops[..|ops| - 1]);
      StepKeepsSound(Run(EMPTY, ops[..|ops| - 1]), ops[|ops| - 1]);
    }
  }

  /** The log is append-only: whatever happens later, its records are still there, unchanged. */
  lemma {:induction false} LogOnlyGrows(ops: seq<Op>, n: nat)
    requires n <= |ops|
    ensures LogGrows(Run(EMPTY, ops[..n]), Run(EMPTY, ops))
  {
    if n == |ops| {
      assert ops[..n] == ops;
    } else {
      var init := ops[..|ops| - 1];
      LogOnlyGrows(init, n);
      assert init[..n] == ops[..n];
      RunsKeepSound(init);
      StepKeepsSound(Run(EMPTY, init), ops[|ops| - 1]);
    }
  }

  /** Reindexing makes exactly the logged ids live, so it brings deleted memories back. */
  lemma ReindexRevivesLogged(ops: seq<Op>, restage: Restaging)
    ensures Run(EMPTY, ops + [Reindex(restage)]).kv.Keys == Run(EMPTY, ops).log.Keys
  {
    var t := Run(EMPTY, ops);
    RunsKeepSound(ops);
    assert (ops + [Reindex(restage)])[..|ops|] == ops;
    ReindexFacts(t, restage);
  }

  // ----- the overlay over every run -----

  /** The condition under which an operation keeps the overlay in agreement; only batch deletes have one. */
  ghost predicate Harmless(t: Tables, op: Op) {
    op.Delete? ==> NoForwardLink(t.kv, op.ids)
  }

  lemma StepKeepsOverlayExactly(t: Tables, op: Op)
    requires StoreSound(t) && OverlayAgrees(t)
    ensures OverlayAgrees(Step(t, op)) <==> Harmless(t, op)
  {
    match op
    case Write(u) =>
    case Usage(ids, signal) => UsageKeeps(t, ids, UsageDelta(signal));
    case Strengthen(source, target, delta, now) => StrengthenKeeps(t, source, target, delta, now);
    case Consolidate(input, curve, summaries, stage) => ConsolidateKeeps(t, input, curve, summaries, stage);
    case Reindex(restage) => ReindexFacts(t, restage);
    case Delete(ids) => DeleteKeepsOverlayExactly(t, ids);
  }

  ghost predicate EveryPrefix(ops: seq<Op>, p: seq<Op> -> bool) {
    forall n :: 0 <= n <= |ops| ==> p(ops[..n])
  }

  lemma ExtendPrefix(ops: seq<Op>, p: seq<Op> -> bool)
    requires ops != []
    ensures EveryPrefix(ops, p) <==> EveryPrefix(ops[..|ops| - 1], p) && p(ops)
  {
    var init := ops[..|ops| - 1];
    assert forall k :: 0 <= k < |ops| ==> init[..k] == ops[..k];
    assert ops[..|ops|] == ops;
  }

  /** The run leaves the overlay in agreement. */
  ghost function EndsAgreeing(): seq<Op> -> bool {
    (ops: seq<Op>) => OverlayAgrees(Run(EMPTY, ops))
  }

  /** The last operation of the run was harmless where it was applied. */
  ghost function EndsHarmless(): seq<Op> -> bool {
    (ops: seq<Op>) => ops == [] || Harmless(Run(EMPTY, ops[..|ops| - 1]), ops[|ops| - 1])
  }

  /** The overlay agrees throughout a run exactly when no batch delete of the run has an id pointing at a later one. */
  lemma {:induction false} OverlayAgreesOverRuns(ops: seq<Op>)
    ensures EveryPrefix(ops, EndsAgreeing()) <==> EveryPrefix(ops, EndsHarmless())
  {
    if ops == [] {
      assert ops[..0] == [];
    } else {
      var init := ops[..|ops| - 1];
      OverlayAgreesOverRuns(init);
      ExtendPrefix(ops, EndsAgreeing());
      ExtendPrefix(ops, EndsHarmless());
      if EveryPrefix(init, EndsAgreeing()) {
        LastPrefix(init, EndsAgreeing());
        AgreementStep(ops);
      }
    }
  }

  lemma LastPrefix(ops: seq<Op>, p: seq<Op> -> bool)
    requires EveryPrefix(ops, p)
    ensures p(ops)
  {
    assert ops[..|ops|] == ops;
  }

  lemma AgreementStep(ops: seq<Op>)
    requires ops != [] && OverlayAgrees(Run(EMPTY, ops[..|ops| - 1]))
    ensures EndsAgreeing()(ops) <==> EndsHarmless()(ops)
  {
    RunsKeepSound(ops[..|ops| - 1]);
    StepKeepsOverlayExactly(Run(EMPTY, ops[..|ops| - 1]), ops[|ops| - 1]);
  }

  /** With deletes of one id at a time the overlay always has the units' keys and links. */
  lemma SingleDeletesKeepOverlay(ops: seq<Op>)
    requires forall n :: 0 <= n < |ops| && ops[n].Delete? ==> |ops[n].ids| <= 1
    ensures OverlayAgrees(Run(EMPTY, ops))
  {
    forall n | 0 <= n <= |ops| ensures EndsHarmless()(ops[..n]) {
      assert n > 0 ==> ops[..n][n - 1] == ops[n - 1];
    }
    OverlayAgreesOverRuns(ops);
    LastPrefix(ops, EndsAgreeing());
  }

  // ----- consolidating twice -----

  /** What loading all units gives, in any order. */
  ghost predicate IsLoad(units: seq<MemoryUnit>, kv: map<Id, MemoryUnit>) {
    && UniqueIds(units) && (forall x :: x in kv ==> kv[x].id == x)
    && (forall u: MemoryUnit :: u in units <==> u.id in kv && kv[u.id] == u)
  }

  ghost predicate FreshFor(summaries: seq<Summary>, t: Tables) {
    DistinctIds(summaries) && forall s :: s in summaries ==> s.id !in t.log
  }

  ghost predicate IsSummaryId(summaries: seq<Summary>, n: nat, x: Id)
    requires n <= |summaries|
  {
    exists k :: 0 <= k < n && summaries[k].id == x
  }

  ghost predicate LogAdded(log: map<Id, MemoryUnit>, base: map<Id, MemoryUnit>, summaries: seq<Summary>, n: nat)
    requires n <= |summaries|
  {
    forall x :: x in log <==> x in base || IsSummaryId(summaries, n, x)
  }

  ghost predicate RowsAdded(kv: map<Id, MemoryUnit>, base: map<Id, MemoryUnit>, summaries: seq<Summary>, n: nat)
    requires n <= |summaries|
  {
    && (forall x :: x in kv <==> x in base || IsSummaryId(summaries, n, x))
    && (forall x :: x in base ==> kv[x] == base[x])
    && (forall k :: 0 <= k < n ==> summaries[k].id in kv && Stores(kv[summaries[k].id], summaries[k]))
  }

  /** The first `n` summaries have been added to the tables, and nothing else. */
  ghost predicate Added(r: Tables, t: Tables, summaries: seq<Summary>, n: nat)
    requires n <= |summaries|
  {
    RowsSound(r) && LogAdded(r.log, t.log, summaries, n) && RowsAdded(r.kv, t.kv, summaries, n)
  }

  lemma SummaryIdStep(summaries: seq<Summary>, n: nat, x: Id)
    requires 0 < n <= |summaries|
    ensures IsSummaryId(summaries, n, x) <==> IsSummaryId(summaries, n - 1, x) || x == summaries[n - 1].id
  {
    if IsSummaryId(summaries, n, x) {
      var k :| 0 <= k < n && summaries[k].id == x;
      assert k == n - 1 || IsSummaryId(summaries, n - 1, x);
    }
  }

  lemma SummaryStepShape(p: Tables, staged: MemoryUnit, links: seq<Link>)
    requires staged.id !in p.log
    ensures var r := StoreSummaryStep(p, staged, links);
            && r.kv == p.kv[staged.id := staged.(links := links, byConsolidation := true)]
            && r.log == p.log[staged.id := staged.(enrichedKeys := [])]
  {
  }

  lemma AddOneSummary(p: Tables, t: Tables, summaries: seq<Summary>, n: nat, r: Tables, v: MemoryUnit,
                      logged: MemoryUnit)
    requires 0 < n <= |summaries| && DistinctIds(summaries) && Added(p, t, summaries, n - 1)
    requires summaries[n - 1].id !in t.log && RowsSound(t)
    requires Stores(v, summaries[n - 1]) && logged.id == v.id
    requires r.kv == p.kv[v.id := v] && r.log == p.log[v.id := logged]
    ensures Added(r, t, summaries, n)
  {
    AddLog(p.log, t.log, summaries, n, logged);
    AddRow(p.kv, t.kv, summaries, n, v);
    AddKeepsRows(p, r, v, logged);
  }

  lemma AddKeepsRows(p: Tables, r: Tables, v: MemoryUnit, logged: MemoryUnit)
    requires RowsSound(p) && logged.id == v.id && r.kv == p.kv[v.id := v] && r.log == p.log[v.id := logged]
    ensures RowsSound(r)
  {}

  lemma AddLog(log: map<Id, MemoryUnit>, base: map<Id, MemoryUnit>, summaries: seq<Summary>, n: nat, logged: MemoryUnit)
    requires 0 < n <= |summaries| && LogAdded(log, base, summaries, n - 1) && logged.id == summaries[n - 1].id
    ensures LogAdded(log[logged.id := logged], base, summaries, n)
  {
    forall x ensures IsSummaryId(summaries, n, x) <==> IsSummaryId(summaries, n - 1, x) || x == logged.id {
      SummaryIdStep(summaries, n, x);
    }
  }

  lemma AddRow(kv: map<Id, MemoryUnit>, base: map<Id, MemoryUnit>, summaries: seq<Summary>, n: nat, v: MemoryUnit)
    requires 0 < n <= |summaries| && DistinctIds(summaries) && RowsAdded(kv, base, summaries, n - 1)
    requires Stores(v, summaries[n - 1]) && v.id !in base
    ensures RowsAdded(kv[v.id := v], base, summaries, n)
  {
    forall x ensures IsSummaryId(summaries, n, x) <==> IsSummaryId(summaries, n - 1, x) || x == v.id {
      SummaryIdStep(summaries, n, x);
    }
    AllStored(kv, kv[v.id := v], summaries, n, v);
  }

  lemma AllStored(kv: map<Id, MemoryUnit>, after: map<Id, MemoryUnit>, summaries: seq<Summary>, n: nat, v: MemoryUnit)
    requires 0 < n <= |summaries| && DistinctIds(summaries) && Stores(v, summaries[n - 1]) && after == kv[v.id := v]
    requires forall k :: 0 <= k < n - 1 ==> summaries[k].id in kv && Stores(kv[summaries[k].id], summaries[k])
    ensures forall k :: 0 <= k < n ==> summaries[k].id in after && Stores(after[summaries[k].id], summaries[k])
  {
    forall k | 0 <= k < n ensures summaries[k].id in after && Stores(after[summaries[k].id], summaries[k]) {
      assert k < n - 1 ==> summaries[k].id != summaries[n - 1].id;
    }
  }

  lemma AddStaged(p: Tables, t: Tables, summaries: seq<Summary>, n: nat, staged: MemoryUnit, links: seq<Link>)
    requires 0 < n <= |summaries| && FreshFor(summaries, t) && RowsSound(t) && Added(p, t, summaries, n - 1)
    requires staged.id == summaries[n - 1].id && staged.preceding == summaries[n - 1].covers
    requires staged.lifecycle == Active
    ensures !WriteRefused(p, staged.id, false)
    ensures Added(StoreSummaryStep(p, staged, links), t, summaries, n)
  {
    assert summaries[n - 1] in summaries && !IsSummaryId(summaries, n - 1, staged.id);
    assert staged.id !in p.log;
    SummaryStepShape(p, staged, links);
    AddOneSummary(p, t, summaries, n, StoreSummaryStep(p, staged, links),
                  staged.(links := links, byConsolidation := true), staged.(enrichedKeys := []));
  }

  // ----- the summaries stored one by one -----

  ghost predicate StoredAt(stored: nat -> (Tables, bool), t: Tables, summaries: seq<Summary>, n: nat, into: map<Id, Id>,
                           stage: Staging) {
    n <= |summaries| ==> stored(n) == StoreSummaries(t, summaries, n, into, stage)
  }

  /** `stored(n)` is the outcome after `n` summaries. */
  ghost predicate IsStoring(stored: nat -> (Tables, bool), t: Tables, summaries: seq<Summary>, into: map<Id, Id>,
                            stage: Staging) {
    forall n: nat :: StoredAt(stored, t, summaries, n, into, stage)
  }

  ghost function Storing(t: Tables, summaries: seq<Summary>, into: map<Id, Id>, stage: Staging): nat -> (Tables, bool) {
    (n: nat) => if n <= |summaries| then StoreSummaries(t, summaries, n, into, stage) else (t, false)
  }

  lemma StoringIsStoring(t: Tables, summaries: seq<Summary>, into: map<Id, Id>, stage: Staging)
    ensures IsStoring(Storing(t, summaries, into, stage), t, summaries, into, stage)
  {
    forall n: nat ensures StoredAt(Storing(t, summaries, into, stage), t, summaries, n, into, stage) {
    }
  }

  /** One more summary: refused, and nothing changes, or stored. */
  lemma StoredStep(stored: nat -> (Tables, bool), t: Tables, summaries: seq<Summary>, k: nat, into: map<Id, Id>,
                   stage: Staging, p: Tables)
    requires k < |summaries| && IsStoring(stored, t, summaries, into, stage) && stored(k) == (p, true)
    ensures var s := summaries[k];
            stored(k + 1) ==
              (StoreSummaryStep(p, StagedSummary(stage, k, s), SummaryLinks(s, into)), !WriteRefused(p, s.id, false))
  {
    assert StoredAt(stored, t, summaries, k, into, stage) && StoredAt(stored, t, summaries, k + 1, into, stage);
    StoreSummariesStep(t, summaries, k, into, stage, p);
  }

  lemma StoreSummariesStep(t: Tables, summaries: seq<Summary>, k: nat, into: map<Id, Id>, stage: Staging, p: Tables)
    requires k < |summaries| && StoreSummaries(t, summaries, k, into, stage) == (p, true)
    ensures var s := summaries[k];
            StoreSummaries(t, summaries, k + 1, into, stage)
              == (StoreSummaryStep(p, StagedSummary(stage, k, s), SummaryLinks(s, into)), !WriteRefused(p, s.id, false))
  {
  }

  lemma NothingAdded(t: Tables, summaries: seq<Summary>)
    requires RowsSound(t)
    ensures Added(t, t, summaries, 0)
  {
  }

  lemma StoredStart(stored: nat -> (Tables, bool), t: Tables, summaries: seq<Summary>, into: map<Id, Id>,
                    stage: Staging)
    requires IsStoring(stored, t, summaries, into, stage)
    ensures stored(0) == (t, true)
  {
    assert StoredAt(stored, t, summaries, 0, into, stage);
  }

  /** With fresh ids every summary write succeeds; live units stay and each summary is stored with its covers. */
  lemma {:induction false} SummariesStored(stored: nat -> (Tables, bool), t: Tables, summaries: seq<Summary>, n: nat,
                                           into: map<Id, Id>, stage: Staging)
    requires n <= |summaries| && FreshFor(summaries, t) && RowsSound(t) && IsStoring(stored, t, summaries, into, stage)
    ensures stored(n).1 && Added(stored(n).0, t, summaries, n)
  {
    if n == 0 {
      StoredStart(stored, t, summaries, into, stage);
      NothingAdded(t, summaries);
    } else {
      var p, s := stored(n - 1).0, summaries[n - 1];
      SummariesStored(stored, t, summaries, n - 1, into, stage);
      StoredStep(stored, t, summaries, n - 1, into, stage, p);
      AddStaged(p, t, summaries, n, StagedSummary(stage, n - 1, s), SummaryLinks(s, into));
    }
  }

  /** The first `n` summaries have ids that are logged, were not logged before and differ from each other. */
  ghost predicate FreshUpTo(summaries: seq<Summary>, n: nat, log: map<Id, MemoryUnit>, later: map<Id, MemoryUnit>)
    requires n <= |summaries|
  {
    && (forall x :: x in log ==> x in later)
    && (forall i :: 0 <= i < n ==> summaries[i].id !in log && summaries[i].id in later)
    && (forall i, j :: 0 <= i < j < n ==> summaries[i].id != summaries[j].id)
  }

  lemma {:induction false} StoredMeansFresh(stored: nat -> (Tables, bool), t: Tables, summaries: seq<Summary>, n: nat,
                                            into: map<Id, Id>, stage: Staging)
    requires n <= |summaries| && IsStoring(stored, t, summaries, into, stage) && stored(n).1
    ensures FreshUpTo(summaries, n, t.log, stored(n).0.log)
  {
    if n == 0 {
      StoredStart(stored, t, summaries, into, stage);
    } else {
      var p, s := stored(n - 1).0, summaries[n - 1];
      StoredBefore(stored, t, summaries, n, into, stage);
      StoredMeansFresh(stored, t, summaries, n - 1, into, stage);
      StoredStep(stored, t, summaries, n - 1, into, stage, p);
      SummaryStepShape(p, StagedSummary(stage, n - 1, s), SummaryLinks(s, into));
    }
  }

  lemma StoredBefore(stored: nat -> (Tables, bool), t: Tables, summaries: seq<Summary>, n: nat, into: map<Id, Id>,
                     stage: Staging)
    requires 0 < n <= |summaries| && IsStoring(stored, t, summaries, into, stage) && stored(n).1
    ensures stored(n - 1).1
  {
    assert StoredAt(stored, t, summaries, n, into, stage) && StoredAt(stored, t, summaries, n - 1, into, stage);
  }

  /** All summaries are stored exactly when their ids are new to the log and differ. */
  lemma AllStoredExactly(t: Tables, summaries: seq<Summary>, into: map<Id, Id>, stage: Staging)
    requires RowsSound(t)
    ensures StoreSummaries(t, summaries, |summaries|, into, stage).1 <==> FreshFor(summaries, t)
  {
    var stored := Storing(t, summaries, into, stage);
    StoringIsStoring(t, summaries, into, stage);
    assert StoredAt(stored, t, summaries, |summaries|, into, stage);
    if FreshFor(summaries, t) {
      SummariesStored(stored, t, summaries, |summaries|, into, stage);
    } else if stored(|summaries|).1 {
      StoredMeansFresh(stored, t, summaries, |summaries|, into, stage);
    }
  }

  /** The units after a consolidation: the consolidated old ones and the stored summaries. */
  ghost predicate KvAfter(after: map<Id, MemoryUnit>, kv: map<Id, MemoryUnit>, input: CycleInput, curve: Curve,
                          summaries: seq<Summary>) {
    && (forall x :: x in after <==> x in kv || IsSummaryId(summaries, |summaries|, x))
    && (forall x :: x in kv ==> after[x] == Consolidated(kv[x], input, curve, summaries))
    && (forall k :: 0 <= k < |summaries| ==> Stores(after[summaries[k].id], summaries[k]))
  }

  lemma KvAfterConsolidation(t: Tables, input: CycleInput, curve: Curve, summaries: seq<Summary>, stage: Staging)
    requires RowsSound(t) && FreshFor(summaries, t)
    ensures KvAfter(ConsolidateStep(t, input, curve, summaries, stage).kv, t.kv, input, curve, summaries)
    ensures RowsSound(ConsolidateStep(t, input, curve, summaries, stage))
    ensures forall x :: x in ConsolidateStep(t, input, curve, summaries, stage).log <==>
              x in t.log || IsSummaryId(summaries, |summaries|, x)
  {
    var f := ConsolidatedBy(input, curve, summaries);
    var w := RewriteStep(t, f);
    ConsolidationKeepsKeys(input, curve, summaries);
    RewriteRows(t, f);
    var into := CompressedInto(summaries);
    var stored := Storing(w, summaries, into, stage);
    StoringIsStoring(w, summaries, into, stage);
    SummariesStored(stored, w, summaries, |summaries|, into, stage);
    assert StoredAt(stored, w, summaries, |summaries|, into, stage);
  }

  lemma EveryUnitFollows(kv: map<Id, MemoryUnit>, units: seq<MemoryUnit>, input: CycleInput, curve: Curve,
                         summaries: seq<Summary>,
                         after: map<Id, MemoryUnit>, l: MemoryUnit, next: CycleInput, nextCurve: Curve)
    requires IsLoad(units, kv) && KvAfter(after, kv, input, curve, summaries)
    requires l.id in after && after[l.id] == l
    ensures var v := CycleUnit(l, next, nextCurve);
            HasOrigin(v, CycleUnits(units, input, curve), summaries)
  {
    var before := CycleUnits(units, input, curve);
    if l.id in kv {
      ConsolidatedKeeps(kv[l.id], input, curve, summaries);
      assert kv[l.id] in units;
      var k :| 0 <= k < |units| && units[k] == kv[l.id];
      CarriedOver(kv[l.id], input, curve, summaries, next, nextCurve);
      assert before[k] in before;
    } else {
      var k :| 0 <= k < |summaries| && summaries[k].id == l.id;
      assert summaries[k] in summaries;
    }
  }

  lemma LoadedFollow(kv: map<Id, MemoryUnit>, units: seq<MemoryUnit>, input: CycleInput, curve: Curve,
                     summaries: seq<Summary>,
                     after: map<Id, MemoryUnit>, loaded: seq<MemoryUnit>, next: CycleInput, nextCurve: Curve)
    requires IsLoad(units, kv) && KvAfter(after, kv, input, curve, summaries) && IsLoad(loaded, after)
    ensures forall v :: v in CycleUnits(loaded, next, nextCurve) ==>
              HasOrigin(v, CycleUnits(units, input, curve), summaries)
  {
    var cycled := CycleUnits(loaded, next, nextCurve);
    forall v | v in cycled
      ensures HasOrigin(v, CycleUnits(units, input, curve), summaries)
    {
      var i :| 0 <= i < |loaded| && cycled[i] == v;
      assert loaded[i] in loaded;
      EveryUnitFollows(kv, units, input, curve, summaries, after, loaded[i], next, nextCurve);
    }
  }

  /** After a consolidation, any load of the store follows the units the plan was made from. */
  lemma ConsolidationFollows(kv: map<Id, MemoryUnit>, units: seq<MemoryUnit>, input: CycleInput, curve: Curve,
                             summaries: seq<Summary>,
                             after: map<Id, MemoryUnit>, loaded: seq<MemoryUnit>, next: CycleInput, nextCurve: Curve)
    requires IsLoad(units, kv) && KvAfter(after, kv, input, curve, summaries) && IsLoad(loaded, after)
    ensures Follows(CycleUnits(loaded, next, nextCurve), CycleUnits(units, input, curve), summaries)
  {
    var before, cycled := CycleUnits(units, input, curve), CycleUnits(loaded, next, nextCurve);
    LoadedFollow(kv, units, input, curve, summaries, after, loaded, next, nextCurve);
    forall u | u in before ensures exists v :: v in cycled && Carries(v, u, summaries) {
      var i :| 0 <= i < |units| && before[i] == u;
      assert units[i] in units;
      UnitIsCarried(kv, input, curve, summaries, after, loaded, units[i], next, nextCurve);
    }
    forall s | s in summaries ensures exists v :: v in cycled && Stores(v, s) {
      SummaryIsStored(kv, input, curve, summaries, after, loaded, s, next, nextCurve);
    }
  }

  lemma UnitIsCarried(kv: map<Id, MemoryUnit>, input: CycleInput, curve: Curve, summaries: seq<Summary>,
                      after: map<Id, MemoryUnit>, loaded: seq<MemoryUnit>, u: MemoryUnit, next: CycleInput,
                      nextCurve: Curve)
    requires KvAfter(after, kv, input, curve, summaries) && IsLoad(loaded, after) && u.id in kv && kv[u.id] == u
    ensures exists v :: v in CycleUnits(loaded, next, nextCurve) && Carries(v, CycleUnit(u, input, curve), summaries)
  {
    ConsolidatedKeeps(u, input, curve, summaries);
    var k := LoadedAt(after, loaded, u.id);
    CarriedOver(u, input, curve, summaries, next, nextCurve);
    assert CycleUnits(loaded, next, nextCurve)[k] in CycleUnits(loaded, next, nextCurve);
  }

  lemma SummaryIsStored(kv: map<Id, MemoryUnit>, input: CycleInput, curve: Curve, summaries: seq<Summary>,
                        after: map<Id, MemoryUnit>, loaded: seq<MemoryUnit>, s: Summary, next: CycleInput,
                        nextCurve: Curve)
    requires KvAfter(after, kv, input, curve, summaries) && IsLoad(loaded, after) && s in summaries
    ensures exists v :: v in CycleUnits(loaded, next, nextCurve) && Stores(v, s)
  {
    var k :| 0 <= k < |summaries| && summaries[k] == s;
    assert IsSummaryId(summaries, |summaries|, s.id);
    var j := LoadedAt(after, loaded, s.id);
    assert CycleUnits(loaded, next, nextCurve)[j] in CycleUnits(loaded, next, nextCurve);
  }

  lemma LoadedAt(kv: map<Id, MemoryUnit>, loaded: seq<MemoryUnit>, x: Id) returns (k: nat)
    requires IsLoad(loaded, kv) && x in kv && kv[x].id == x
    ensures k < |loaded| && loaded[k] == kv[x]
  {
    assert kv[x] in loaded;
    k :| 0 <= k < |loaded| && loaded[k] == kv[x];
  }

  lemma RewriteRows(t: Tables, f: MemoryUnit -> MemoryUnit)
    requires RowsSound(t) && KeepsKeys(f)
    ensures RowsSound(RewriteStep(t, f))
    ensures forall x :: x in RewriteStep(t, f).kv <==> x in t.kv
    ensures forall x :: x in t.kv ==> RewriteStep(t, f).kv[x] == f(t.kv[x])
  {
  }

  lemma CarriedOver(u: MemoryUnit, input: CycleInput, curve: Curve, summaries: seq<Summary>, next: CycleInput,
                    nextCurve: Curve)
    ensures Carries(CycleUnit(Consolidated(u, input, curve, summaries), next, nextCurve), CycleUnit(u, input, curve),
                    summaries)
  {
    MarkKeepsRest(CycleUnit(u, input, curve), summaries);
  }

  /**
   A consolidation right after a consolidation creates no summary, for any activation data, parameters and gate,
   as long as the ids generated for the first one's summaries were new to the store.
   */
  lemma ConsolidatingAgainCreatesNothing(t: Tables, units: seq<MemoryUnit>, input: CycleInput, curve: Curve,
                                         sim: Similarity,
                                         params: PlanParams, gate: seq<Id> -> bool, generate: nat -> Id, stage: Staging,
                                         loaded: seq<MemoryUnit>, next: CycleInput, nextCurve: Curve,
                                         generateNext: nat -> Id)
    requires RowsSound(t) && IsLoad(units, t.kv)
    requires Injective(generate) && forall k: nat :: generate(k) !in t.log
    requires var summaries := SummariesFor(Plan(CycleUnits(units, input, curve), sim, params), gate, generate);
             IsLoad(loaded, ConsolidateStep(t, input, curve, summaries, stage).kv)
    ensures SummariesFor(Plan(CycleUnits(loaded, next, nextCurve), sim, params), gate, generateNext) == []
  {
    var cycled := CycleUnits(units, input, curve);
    var plan := Plan(cycled, sim, params);
    var summaries := SummariesFor(plan, gate, generate);
    SummariesOrigin(plan, gate, generate);
    SummariesDistinct(plan, gate, generate);
    forall s | s in summaries ensures s.id !in t.log {
      var k: nat :| k < |plan| && s.id == generate(k);
    }
    KvAfterConsolidation(t, input, curve, summaries, stage);
    var after := ConsolidateStep(t, input, curve, summaries, stage).kv;
    ConsolidationFollows(t.kv, units, input, curve, summaries, after, loaded, next, nextCurve);
    CycleKeepsIds(units, input, curve);
    CycleKeepsIds(loaded, next, nextCurve);
    SecondPassCreatesNothing(cycled, CycleUnits(loaded, next, nextCurve), sim, params, gate, generate, generateNext);
  }

  lemma CycleKeepsIds(units: seq<MemoryUnit>, input: CycleInput, curve: Curve)
    requires UniqueIds(units)
    ensures UniqueIds(CycleUnits(units, input, curve))
  {
    var c := CycleUnits(units, input, curve);
    assert forall i :: 0 <= i < |units| ==> c[i].id == units[i].id;
  }
}
