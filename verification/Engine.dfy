/** The engine's operations as they run on the tables: each one ends in the state its step function gives. */
module Engine {
  import opened MemoryModel
  import opened Sorting
  import opened Sums
  import opened ActivationLogs
  import opened Worker
  import opened Decay
  import opened Summaries
  import opened Compression
  import opened StoreTables
  import opened StoreRuns

  const COACTIVATION_WINDOW_MS := 3_600_000

  /** Strengths are unit scores by type. */
  ghost predicate ScoredUnits(kv: map<Id, MemoryUnit>) {
    forall id :: id in kv ==> StrengthsInRange(kv[id].links)
  }

  class Engine {
    var log: map<Id, MemoryUnit>
    var kv: map<Id, MemoryUnit>
    var overlay: map<Id, seq<Link>>
    var index: map<Key, seq<Id>>

    function State(): Tables
      reads this
    {
      Tables(log, kv, overlay, index)
    }

    constructor ()
      ensures State() == EMPTY
    {
      log, kv, overlay, index := map[], map[], map[], map[];
    }

    // ----- write -----

    method AppendIds(keys: seq<Key>, id: Id)
      modifies this`index
      ensures index == AddPostings(old(index), keys, id)
    {
      for i := 0 to |keys|
        invariant index == AddPostings(old(index), keys[..i], id)
      {
        assert keys[..i + 1][..i] == keys[..i];
        var ids := Posting(index, keys[i]);
        if id !in ids {
          index := index[keys[i] := ids + [id]];
        }
      }
      assert keys[..|keys|] == keys;
    }

    /** One transaction: refused, and nothing changes, if the log already has the id. */
    method PersistMemoryUnit(staged: MemoryUnit, skipLog: bool) returns (ok: bool)
      modifies this
      ensures ok == !WriteRefused(old(State()), staged.id, skipLog)
      ensures !ok ==> State() == old(State())
      ensures ok ==> State() == Tables(if skipLog then old(log) else old(log)[staged.id := staged],
                                       old(kv)[staged.id := staged], old(overlay)[staged.id := staged.links],
                                       AddPostings(old(index), staged.keys, staged.id))
    {
      if !skipLog {
        if staged.id in log {
          return false;
        }
        log := log[staged.id := staged];
      }
      kv := kv[staged.id := staged];
      overlay := overlay[staged.id := staged.links];
      AppendIds(staged.keys, staged.id);
      ok := true;
    }

    method WriteInternal(u: MemoryUnit, skipLog: bool) returns (ok: bool)
      modifies this
      ensures ok == !WriteRefused(old(State()), u.id, skipLog)
      ensures State() == WriteStep(old(State()), u, skipLog)
    {
      ok := PersistMemoryUnit(u.(enrichedKeys := []), skipLog);
      if ok {
        AppendIds(u.enrichedKeys, u.id);
        kv := kv[u.id := u];
      }
    }

    // ----- feedback -----

    /** The usage part of a feedback call: every used id moves by the signal's delta, in order. */
    method ApplyUsage(ids: seq<Id>, signal: Signal)
      modifies this`kv
      ensures State() == UsageStep(old(State()), ids, signal)
    {
      var amount := UsageDelta(signal);
      if amount != 0.0 && ids != [] {
        for i := 0 to |ids|
          invariant State() == UsageAll(old(State()), ids[..i], amount)
        {
          assert ids[..i + 1][..i] == ids[..i];
          var id := ids[i];
          if id in kv {
            kv := kv[id := kv[id].(usage := UnitScore(kv[id].usage + amount))];
          }
        }
        assert ids[..|ids|] == ids;
      }
    }

    method StrengthenEdge(source: Id, target: Id, delta: real, now: int)
      modifies this`kv, this`overlay
      ensures State() == StrengthenStep(old(State()), source, target, delta, now)
    {
      if source in kv {
        var unit := kv[source];
        var links, changed := ReviewEach(unit.links, target, delta, now);
        if changed {
          kv := kv[source := unit.(links := links)];
        }
      }
      if source in overlay {
        var links, changed := ReviewEach(overlay[source], target, delta, now);
        if changed {
          overlay := overlay[source := links];
        }
      }
    }

    // ----- consolidate -----

    method LoadAllUnits() returns (units: seq<MemoryUnit>)
      requires RowsSound(State())
      ensures IsLoad(units, kv)
    {
      var rows := Enumerate(kv);
      units := seq(|rows|, i requires 0 <= i < |rows| => rows[i].1);
      forall u: MemoryUnit ensures u in units <==> u.id in kv && kv[u.id] == u {
        if u.id in kv && kv[u.id] == u {
          var i :| 0 <= i < |rows| && rows[i] == (u.id, kv[u.id]);
          assert units[i] == u;
        }
      }
    }

    method PutUnit(u: MemoryUnit)
      modifies this`kv, this`overlay
      ensures kv == old(kv)[u.id := u] && overlay == old(overlay)[u.id := u.links]
    {
      kv := kv[u.id := u];
      overlay := overlay[u.id := u.links];
    }

    method PutUnits(units: array<MemoryUnit>, ghost was: seq<MemoryUnit>, ghost f: MemoryUnit -> MemoryUnit)
      requires IsLoad(was, kv) && units.Length == |was|
      requires KeepsKeys(f) && forall i :: 0 <= i < |was| ==> units[i] == f(was[i])
      modifies this`kv, this`overlay
      ensures kv == Rewritten(old(kv), f) && overlay == RewrittenRows(old(overlay), old(kv), f)
    {
      ghost var before := kv;
      ghost var rows := overlay;
      for i := 0 to units.Length
        invariant PutSoFar(kv, overlay, before, rows, was, i, f)
      {
        assert was[i] in was && units[i] == f(was[i]) && f(was[i]).id == was[i].id;
        PutOne(kv, overlay, before, rows, was, i, f);
        PutUnit(units[i]);
      }
      PutAll(kv, overlay, before, rows, was, f);
    }

    method PutSummary(staged: MemoryUnit, links: seq<Link>) returns (ok: bool)
      modifies this
      ensures ok == !WriteRefused(old(State()), staged.id, false)
      ensures State() == StoreSummaryStep(old(State()), staged, links)
    {
      ok := WriteInternal(staged, false);
      if ok {
        overlay := overlay[staged.id := links];
        kv := kv[staged.id := kv[staged.id].(links := links, byConsolidation := true)];
      }
    }

    method PutNextSummary(summaries: seq<Summary>, k: nat, into: map<Id, Id>, stage: Staging,
                          ghost t: Tables, ghost stored: nat -> (Tables, bool))
      returns (ok: bool)
      requires k < |summaries| && IsStoring(stored, t, summaries, into, stage) && stored(k) == (State(), true)
      modifies this
      ensures stored(k + 1) == (State(), ok)
    {
      StoredStep(stored, t, summaries, k, into, stage, State());
      ok := PutSummary(StagedSummary(stage, k, summaries[k]), SummaryLinks(summaries[k], into));
    }

    method PutEach(summaries: seq<Summary>, into: map<Id, Id>, stage: Staging, ghost t: Tables,
                   ghost stored: nat -> (Tables, bool)) returns (ok: bool)
      requires IsStoring(stored, t, summaries, into, stage) && stored(0) == (State(), true)
      modifies this
      ensures stored(|summaries|) == (State(), ok)
    {
      ok := true;
      for k := 0 to |summaries|
        invariant ok && stored(k) == (State(), true)
      {
        ok := PutNextSummary(summaries, k, into, stage, t, stored);
        if !ok {
          RefusedStays(stored, t, summaries, k + 1, |summaries|, into, stage);
          return;
        }
      }
    }

    method PutSummaries(summaries: seq<Summary>, into: map<Id, Id>, stage: Staging) returns (ok: bool)
      modifies this
      ensures (State(), ok) == StoreSummaries(old(State()), summaries, |summaries|, into, stage)
    {
      ghost var t := State();
      ghost var stored := Storing(t, summaries, into, stage);
      StoringIsStoring(t, summaries, into, stage);
      assert StoredAt(stored, t, summaries, 0, into, stage) && StoredAt(stored, t, summaries, |summaries|, into, stage);
      ok := PutEach(summaries, into, stage, t, stored);
    }

    /**
     Incremental consolidation: activation log to pairs, one cycle, planning, gating, compression and redirection,
     then every unit, its overlay row and the summaries are stored. The load order does not matter for the result.
     */
    method ConsolidateIncremental(records: seq<FeedbackRecord>, now: int, curve: Curve, params: PlanParams,
                                  generate: nat -> Id, stage: Staging)
      returns (input: CycleInput, summaries: seq<Summary>, units: seq<MemoryUnit>, ok: bool)
      requires RowsSound(State()) && ScoredUnits(kv)
      modifies this
      ensures IsLoad(units, old(kv))
      ensures ArePairsOf(input.pairs, LogOf(records), 3_600_000) && AscendingPairs(input.pairs)
      ensures input.rejected == RejectedOf(records) && input.now == now
      ensures summaries == SummariesFor(Plan(CycleUnits(units, input, curve), TextJaccard, params), Confident, generate)
      ensures exists gs :: GroupedByWords(gs, CycleUnits(units, input, curve), params.similarity)
                && SummariesOf(summaries, gs, params)
      ensures State() == ConsolidateStep(old(State()), input, curve, summaries, stage)
      ensures ok <==> FreshFor(summaries, old(State()))
    {
      units := LoadAllUnits();
      input := CollectInput(records, now);
      var work := new MemoryUnit[|units|](i requires 0 <= i < |units| => units[i]);
      assert work[..] == units;
      LoadedScores(units, kv);
      var into: map<Id, Id>;
      summaries, into := CycleAndCompress(work, units, input, curve, params, generate);
      ConsolidationKeepsKeys(input, curve, summaries);
      PutUnits(work, units, ConsolidatedBy(input, curve, summaries));
      RewriteRows(old(State()), ConsolidatedBy(input, curve, summaries));
      AllStoredExactly(State(), summaries, into, stage);
      ok := PutSummaries(summaries, into, stage);
      CycleKeepsIds(units, input, curve);
      SummariesByWords(CycleUnits(units, input, curve), params, generate);
    }

    // ----- reindex -----

    method ConsolidateReindex(restage: Restaging)
      requires RowsSound(State())
      modifies this
      ensures State() == ReindexStep(old(State()), restage)
    {
      ghost var t := State();
      var order := AscendingKeys(log);
      kv, overlay, index := map[], map[], map[];
      Rebuild(order, restage, t);
    }

    method Rebuild(order: seq<Id>, restage: Restaging, ghost t: Tables)
      requires State() == t.(kv := map[], overlay := map[], index := map[])
      requires forall id :: id in order ==> id in t.log
      modifies this
      ensures State() == ReindexFrom(t, order, restage)
    {
      for i := 0 to |order|
        invariant log == t.log && State() == ReindexFrom(t, order[..i], restage)
      {
        ReindexNext(t, order, i, restage);
        var id := order[i];
        var _ := WriteInternal(Restaged(restage, State(), log[id], id), true);
      }
      assert order[..|order|] == order;
    }

    // ----- delete -----

    method RemoveFromIndexes(id: Id)
      modifies this`index
      ensures index == RemovePostings(old(index), id)
    {
      var affected := AffectedKeys(index, id);
      ghost var was := index;
      for i := 0 to |affected|
        invariant Stripped(index, was, id, affected, i)
      {
        StripOne(index, was, id, affected, i);
        var ids := Filter(index[affected[i]], OtherThan(id));
        if ids == [] {
          index := index - {affected[i]};
        } else {
          index := index[affected[i] := ids];
        }
      }
      StripAll(index, was, id, affected);
    }

    /** Writes the remaining links back if the unit had a link to `id`. */
    method CutUnit(unit: MemoryUnit, id: Id, ghost snapshot: map<Id, MemoryUnit>)
      requires unit.id in snapshot && snapshot[unit.id] == unit
      modifies this`kv, this`overlay
      ensures var r := Remaining(unit.links, id);
              if Points(snapshot, unit.id, id) then
                kv == (if unit.id in old(kv) then old(kv)[unit.id := old(kv)[unit.id].(links := r)] else old(kv))
                && overlay == old(overlay)[unit.id := r]
              else kv == old(kv) && overlay == old(overlay)
    {
      if unit.id != id {
        var remaining := Filter(unit.links, NotTo(id));
        PointsByLength(snapshot, unit, id);
        if |remaining| != |unit.links| {
          overlay := overlay[unit.id := remaining];
          if unit.id in kv {
            kv := kv[unit.id := kv[unit.id].(links := remaining)];
          }
        }
      }
    }

    method RemoveInEdges(units: seq<MemoryUnit>, id: Id, ghost snapshot: map<Id, MemoryUnit>)
      requires IsLoad(units, snapshot)
      modifies this`kv, this`overlay
      ensures EdgesCut(kv, overlay, old(kv), old(overlay), snapshot, units, |units|, id)
    {
      ghost var before := kv;
      ghost var rows := overlay;
      for i := 0 to |units|
        invariant EdgesCut(kv, overlay, before, rows, snapshot, units, i, id)
      {
        assert units[i] in units;
        CutOne(kv, overlay, before, rows, snapshot, units, i, id);
        CutUnit(units[i], id, snapshot);
      }
    }

    method DeleteMemory(units: seq<MemoryUnit>, id: Id, ghost snapshot: map<Id, MemoryUnit>) returns (found: bool)
      requires IsLoad(units, snapshot) && forall x :: x in kv ==> x in snapshot
      modifies this
      ensures found == (id in old(kv))
      ensures State() == DeleteOne(old(State()), snapshot, id)
    {
      found := id in kv;
      if found {
        ghost var before := State();
        kv := kv - {id};
        overlay := overlay - {id};
        ghost var left, rows := kv, overlay;
        RemoveInEdges(units, id, snapshot);
        CutAll(kv, overlay, left, rows, snapshot, units, id);
        RemoveFromIndexes(id);
        SameAsDeleteOne(before, snapshot, id, kv, overlay);
      }
    }

    /** Deletes the given memories one after the other against the links loaded before the loop. */
    method Delete(ids: seq<Id>) returns (deleted: nat)
      requires RowsSound(State())
      modifies this
      ensures State() == DeleteStep(old(State()), ids)
      ensures deleted == |old(kv)| - |kv|
    {
      var units := LoadAllUnits();
      ghost var t := State();
      deleted := 0;
      for i := 0 to |ids|
        invariant State() == DeleteAll(t, t.kv, ids[..i])
        invariant forall x :: x in kv ==> x in t.kv
        invariant deleted == |t.kv| - |kv|
      {
        assert ids[..i + 1][..i] == ids[..i];
        KeysAfterDelete(State(), t.kv, ids[i]);
        var found := DeleteMemory(units, ids[i], t.kv);
        if found {
          deleted := deleted + 1;
        }
      }
      assert ids[..|ids|] == ids;
    }
  }

  lemma KeysAfterDelete(t: Tables, snapshot: map<Id, MemoryUnit>, id: Id)
    ensures forall x :: x in DeleteOne(t, snapshot, id).kv ==> x in t.kv
    ensures |DeleteOne(t, snapshot, id).kv| == |t.kv| - (if id in t.kv then 1 else 0)
  {
    var r := DeleteOne(t, snapshot, id);
    if id in t.kv {
      assert r.kv.Keys == t.kv.Keys - {id};
      assert |r.kv| == |r.kv.Keys| && |t.kv| == |t.kv.Keys|;
    }
  }

  method CollectInput(records: seq<FeedbackRecord>, now: int) returns (input: CycleInput)
    ensures ArePairsOf(input.pairs, LogOf(records), COACTIVATION_WINDOW_MS) && AscendingPairs(input.pairs)
    ensures input.rejected == RejectedOf(records) && input.now == now
  {
    var activation, rejected := ReadFeedback(records);
    var pairs := activation.CoActivationPairs(COACTIVATION_WINDOW_MS);
    input := CycleInput(pairs, rejected, now);
  }

  /** One cycle, planning, gating, compression and redirection on the loaded units. */
  method CycleAndCompress(work: array<MemoryUnit>, ghost units: seq<MemoryUnit>, input: CycleInput, curve: Curve,
                          params: PlanParams, generate: nat -> Id)
    returns (summaries: seq<Summary>, into: map<Id, Id>)
    requires work[..] == units && UniqueIds(units) && ScoresInRange(units)
    modifies work
    ensures summaries == SummariesFor(Plan(CycleUnits(units, input, curve), TextJaccard, params), Confident, generate)
    ensures into == CompressedInto(summaries)
    ensures forall i :: 0 <= i < |units| ==> work[i] == ConsolidatedBy(input, curve, summaries)(units[i])
  {
    var worker := new ConsolidationWorker();
    var _ := worker.RunCycle(work, input, curve);
    CycleKeepsIds(units, input, curve);
    summaries, into := PlanAndCompress(work, CycleUnits(units, input, curve), params, generate);
  }

  /** Planning, gating, compression and redirection after the cycle. */
  method PlanAndCompress(work: array<MemoryUnit>, ghost cycled: seq<MemoryUnit>, params: PlanParams,
                         generate: nat -> Id)
    returns (summaries: seq<Summary>, into: map<Id, Id>)
    requires work[..] == cycled && UniqueIds(cycled)
    modifies work
    ensures summaries == SummariesFor(Plan(cycled, TextJaccard, params), Confident, generate)
    ensures into == CompressedInto(summaries)
    ensures forall i :: 0 <= i < |cycled| ==> work[i] == CompressUnit(cycled[i], summaries)
  {
    var clusters := PlanSummaryClusters(work[..], params);
    summaries := BuildSummaries(clusters, generate);
    assert forall i :: 0 <= i < |cycled| ==> work[i] == cycled[i];
    into := CompressAndRedirect(work, summaries);
  }

  lemma LoadedScores(units: seq<MemoryUnit>, kv: map<Id, MemoryUnit>)
    requires IsLoad(units, kv) && ScoredUnits(kv)
    ensures ScoresInRange(units)
  {
    forall i | 0 <= i < |units| ensures StrengthsInRange(units[i].links) {
      assert units[i] in units;
    }
  }

  method AscendingKeys(log: map<Id, MemoryUnit>) returns (order: seq<Id>)
    ensures order == AscendingIds(log.Keys)
  {
    var rows := Enumerate(log);
    var ids := seq(|rows|, i requires 0 <= i < |rows| => rows[i].0);
    forall x ensures x in ids <==> x in log.Keys {
      if x in log {
        var i :| 0 <= i < |rows| && rows[i] == (x, log[x]);
        assert ids[i] == x;
      }
    }
    SortedIsAscending(ids, log.Keys);
    order := Sort(ids, Less);
  }

  // ----- loops over links -----

  method ReviewEach(links: seq<Link>, target: Id, delta: real, now: int) returns (updated: seq<Link>, changed: bool)
    ensures updated == ReviewLinks(links, target, delta, now)
    ensures !changed ==> updated == links
  {
    updated, changed := links, false;
    for i := 0 to |links|
      invariant |updated| == |links|
      invariant forall j :: 0 <= j < |links| ==>
                  updated[j] == if j < i && links[j].target == target then Review(links[j], delta, now) else links[j]
      invariant !changed ==> updated == links
    {
      if links[i].target == target {
        updated := updated[i := Review(links[i], delta, now)];
        changed := true;
      }
    }
  }

  // ----- proof of PutUnits -----

  ghost predicate AmongFirst(units: seq<MemoryUnit>, n: nat, x: Id)
    requires n <= |units|
  {
    exists k :: 0 <= k < n && units[k].id == x
  }

  /** The first `n` units and their rows have been replaced. */
  ghost predicate PutSoFar(kv: map<Id, MemoryUnit>, overlay: map<Id, seq<Link>>, before: map<Id, MemoryUnit>,
                           rows: map<Id, seq<Link>>, was: seq<MemoryUnit>, n: nat, f: MemoryUnit -> MemoryUnit)
    requires n <= |was|
  {
    && (forall x :: x in kv <==> x in before)
    && (forall x :: x in kv ==> kv[x] == if AmongFirst(was, n, x) then f(before[x]) else before[x])
    && (forall x :: x in overlay <==> x in rows || AmongFirst(was, n, x))
    && (forall x :: x in overlay ==>
        if AmongFirst(was, n, x) then x in before && overlay[x] == f(before[x]).links else overlay[x] == rows[x])
  }

  lemma AmongStep(units: seq<MemoryUnit>, n: nat, x: Id)
    requires n < |units|
    ensures AmongFirst(units, n + 1, x) <==> AmongFirst(units, n, x) || x == units[n].id
  {
    if AmongFirst(units, n + 1, x) {
      var k :| 0 <= k < n + 1 && units[k].id == x;
      assert k == n || AmongFirst(units, n, x);
    }
  }

  lemma PutOne(kv: map<Id, MemoryUnit>, overlay: map<Id, seq<Link>>, before: map<Id, MemoryUnit>,
               rows: map<Id, seq<Link>>, was: seq<MemoryUnit>, n: nat, f: MemoryUnit -> MemoryUnit)
    requires n < |was| && PutSoFar(kv, overlay, before, rows, was, n, f)
    requires was[n].id in before && before[was[n].id] == was[n]
    ensures var u, id := f(was[n]), was[n].id;
            PutSoFar(kv[id := u], overlay[id := u.links], before, rows, was, n + 1, f)
  {
    forall x ensures AmongFirst(was, n + 1, x) <==> AmongFirst(was, n, x) || x == was[n].id {
      AmongStep(was, n, x);
    }
  }

  lemma AllAmong(units: seq<MemoryUnit>, kv: map<Id, MemoryUnit>, x: Id)
    requires IsLoad(units, kv)
    ensures AmongFirst(units, |units|, x) <==> x in kv
  {
    if x in kv {
      var k := LoadedAt(kv, units, x);
    }
    if AmongFirst(units, |units|, x) {
      var k :| 0 <= k < |units| && units[k].id == x;
      assert units[k] in units;
    }
  }

  lemma PutAll(kv: map<Id, MemoryUnit>, overlay: map<Id, seq<Link>>, before: map<Id, MemoryUnit>,
               rows: map<Id, seq<Link>>, was: seq<MemoryUnit>, f: MemoryUnit -> MemoryUnit)
    requires IsLoad(was, before) && PutSoFar(kv, overlay, before, rows, was, |was|, f)
    ensures kv == Rewritten(before, f) && overlay == RewrittenRows(rows, before, f)
  {
    PutKeys(was, before);
    ReplacedRows(kv, before, f);
    MergedRows(overlay, before, rows, f);
  }

  lemma PutKeys(was: seq<MemoryUnit>, before: map<Id, MemoryUnit>)
    requires IsLoad(was, before)
    ensures forall x :: AmongFirst(was, |was|, x) <==> x in before
  {
    forall x ensures AmongFirst(was, |was|, x) <==> x in before {
      AllAmong(was, before, x);
    }
  }

  lemma ReplacedRows(kv: map<Id, MemoryUnit>, before: map<Id, MemoryUnit>, f: MemoryUnit -> MemoryUnit)
    requires (forall x :: x in kv <==> x in before) && forall x :: x in kv ==> kv[x] == f(before[x])
    ensures kv == Rewritten(before, f)
  {
  }

  lemma MergedRows(overlay: map<Id, seq<Link>>, before: map<Id, MemoryUnit>, rows: map<Id, seq<Link>>,
                   f: MemoryUnit -> MemoryUnit)
    requires forall x :: x in overlay <==> x in rows || x in before
    requires forall x :: x in overlay ==> overlay[x] == if x in before then f(before[x]).links else rows[x]
    ensures overlay == RewrittenRows(rows, before, f)
  {
  }

  /** Once a summary write is refused the rest are not attempted. */
  lemma {:induction false} RefusedStays(stored: nat -> (Tables, bool), t: Tables, summaries: seq<Summary>, n: nat,
                                        m: nat, into: map<Id, Id>, stage: Staging)
    requires IsStoring(stored, t, summaries, into, stage) && n <= m <= |summaries| && !stored(n).1
    ensures stored(m) == stored(n)
    decreases m
  {
    if n < m {
      RefusedStays(stored, t, summaries, n, m - 1, into, stage);
      assert StoredAt(stored, t, summaries, m - 1, into, stage) && StoredAt(stored, t, summaries, m, into, stage);
    }
  }

  // ----- proof of ConsolidateReindex -----

  lemma ReindexNext(t: Tables, order: seq<Id>, i: nat, restage: Restaging)
    requires i < |order| && forall id :: id in order ==> id in t.log
    ensures order[i] in t.log
    ensures var p := ReindexFrom(t, order[..i], restage);
            && p.log == t.log
            && ReindexFrom(t, order[..i + 1], restage) ==
                 WriteStep(p, Restaged(restage, p, t.log[order[i]], order[i]), true)
  {
    assert order[..i + 1][..i] == order[..i] && order[i] in order;
    ReindexKeepsLog(t, order[..i], restage);
  }

  lemma {:induction false} ReindexKeepsLog(t: Tables, order: seq<Id>, restage: Restaging)
    requires forall id :: id in order ==> id in t.log
    ensures ReindexFrom(t, order, restage).log == t.log
  {
    if order != [] {
      ReindexKeepsLog(t, order[..|order| - 1], restage);
    }
  }

  lemma {:induction false} SortedIsAscending(ids: seq<Id>, s: set<Id>)
    requires Distinct(ids) && forall x :: x in ids <==> x in s
    ensures Sort(ids, Less) == AscendingIds(s)
  {
    SortPermutes(ids, Less);
    SortOrdered(ids, Less);
    DistinctMultiset(ids, AscendingIds(s));
    OrderedUnique(Sort(ids, Less), AscendingIds(s), Less);
  }

  // ----- proof of RemoveFromIndexes -----

  method AffectedKeys(index: map<Key, seq<Id>>, id: Id) returns (affected: seq<Key>)
    ensures Distinct(affected)
    ensures forall k :: k in affected <==> k in index && id in index[k]
  {
    var rows := Enumerate(index);
    affected := [];
    for i := 0 to |rows|
      invariant Distinct(affected)
      invariant forall k :: k in affected <==> exists j :: 0 <= j < i && rows[j].0 == k && id in rows[j].1
    {
      if id in rows[i].1 {
        forall j | 0 <= j < |affected| ensures affected[j] != rows[i].0 {
          assert affected[j] in affected;
        }
        affected := affected + [rows[i].0];
      }
    }
    forall k ensures k in affected <==> k in index && id in index[k] {
      if k in index {
        var j :| 0 <= j < |rows| && rows[j] == (k, index[k]);
      }
    }
  }

  ghost predicate Stripped(index: map<Key, seq<Id>>, was: map<Key, seq<Id>>, id: Id, affected: seq<Key>, n: nat)
    requires n <= |affected|
  {
    && (forall k :: k in index <==> k in was && (k in affected[..n] ==> Filter(was[k], OtherThan(id)) != []))
    && (forall k :: k in index ==> index[k] == if k in affected[..n] then Filter(was[k], OtherThan(id)) else was[k])
  }

  lemma StripOne(index: map<Key, seq<Id>>, was: map<Key, seq<Id>>, id: Id, affected: seq<Key>, n: nat)
    requires n < |affected| && Stripped(index, was, id, affected, n) && Distinct(affected) && affected[n] in was
    ensures affected[n] in index
    ensures var ids := Filter(index[affected[n]], OtherThan(id));
            Stripped(if ids == [] then index - {affected[n]} else index[affected[n] := ids], was, id, affected, n + 1)
  {
    assert affected[..n + 1] == affected[..n] + [affected[n]];
    assert affected[n] !in affected[..n];
  }

  lemma StripAll(index: map<Key, seq<Id>>, was: map<Key, seq<Id>>, id: Id, affected: seq<Key>)
    requires Stripped(index, was, id, affected, |affected|)
    requires forall k :: k in affected <==> k in was && id in was[k]
    ensures index == RemovePostings(was, id)
  {
    assert affected[..|affected|] == affected;
  }

  // ----- proof of RemoveInEdges and Delete -----

  /** A filter drops something exactly when some link pointed at the id. */
  lemma PointsByLength(snapshot: map<Id, MemoryUnit>, unit: MemoryUnit, id: Id)
    requires unit.id in snapshot && snapshot[unit.id] == unit && unit.id != id
    ensures Points(snapshot, unit.id, id) <==> |Remaining(unit.links, id)| != |unit.links|
  {
    ShorterExactly(unit.links, id);
  }

  lemma {:induction false} ShorterExactly(links: seq<Link>, id: Id)
    ensures |Remaining(links, id)| <= |links|
    ensures (exists l :: l in links && l.target == id) <==> |Remaining(links, id)| < |links|
  {
    if links != [] {
      ShorterExactly(links[1..], id);
      assert forall l :: l in links <==> l == links[0] || l in links[1..];
    }
  }

  ghost predicate EdgesCut(kv: map<Id, MemoryUnit>, overlay: map<Id, seq<Link>>, before: map<Id, MemoryUnit>,
                           rows: map<Id, seq<Link>>,
                           snapshot: map<Id, MemoryUnit>, units: seq<MemoryUnit>, n: nat, id: Id)
    requires n <= |units|
  {
    && (forall x :: x in kv <==> x in before)
    && (forall x :: x in kv ==>
          kv[x] == if AmongFirst(units, n, x) && Points(snapshot, x, id)
                   then before[x].(links := Remaining(snapshot[x].links, id)) else before[x])
    && (forall x :: x in overlay <==> x in rows || (AmongFirst(units, n, x) && Points(snapshot, x, id)))
    && (forall x :: x in overlay ==>
          overlay[x] == if AmongFirst(units, n, x) && Points(snapshot, x, id)
                        then Remaining(snapshot[x].links, id) else rows[x])
  }

  lemma CutOne(kv: map<Id, MemoryUnit>, overlay: map<Id, seq<Link>>, before: map<Id, MemoryUnit>,
               rows: map<Id, seq<Link>>, snapshot: map<Id, MemoryUnit>, units: seq<MemoryUnit>, n: nat, id: Id)
    requires n < |units| && EdgesCut(kv, overlay, before, rows, snapshot, units, n, id)
    requires units[n].id in snapshot && snapshot[units[n].id] == units[n]
    ensures var u := units[n];
            if Points(snapshot, u.id, id) then
              var r := Remaining(u.links, id);
              EdgesCut(if u.id in kv then kv[u.id := kv[u.id].(links := r)] else kv, overlay[u.id := r],
                       before, rows, snapshot, units, n + 1, id)
            else EdgesCut(kv, overlay, before, rows, snapshot, units, n + 1, id)
  {
    if Points(snapshot, units[n].id, id) {
      CutPointing(kv, overlay, before, rows, snapshot, units, n, id);
    } else {
      CutOther(kv, overlay, before, rows, snapshot, units, n, id);
    }
  }

  lemma CutPointing(kv: map<Id, MemoryUnit>, overlay: map<Id, seq<Link>>, before: map<Id, MemoryUnit>,
                    rows: map<Id, seq<Link>>, snapshot: map<Id, MemoryUnit>, units: seq<MemoryUnit>, n: nat, id: Id)
    requires n < |units| && EdgesCut(kv, overlay, before, rows, snapshot, units, n, id)
    requires Points(snapshot, units[n].id, id) && snapshot[units[n].id] == units[n]
    ensures var u := units[n];
            var r := Remaining(u.links, id);
            EdgesCut(if u.id in kv then kv[u.id := kv[u.id].(links := r)] else kv, overlay[u.id := r],
                     before, rows, snapshot, units, n + 1, id)
  {
    forall x ensures AmongFirst(units, n + 1, x) <==> AmongFirst(units, n, x) || x == units[n].id {
      AmongStep(units, n, x);
    }
  }

  lemma CutOther(kv: map<Id, MemoryUnit>, overlay: map<Id, seq<Link>>, before: map<Id, MemoryUnit>,
                 rows: map<Id, seq<Link>>, snapshot: map<Id, MemoryUnit>, units: seq<MemoryUnit>, n: nat, id: Id)
    requires n < |units| && EdgesCut(kv, overlay, before, rows, snapshot, units, n, id)
    requires !Points(snapshot, units[n].id, id)
    ensures EdgesCut(kv, overlay, before, rows, snapshot, units, n + 1, id)
  {
    forall x ensures AmongFirst(units, n + 1, x) <==> AmongFirst(units, n, x) || x == units[n].id {
      AmongStep(units, n, x);
    }
  }

  lemma CutAll(kv: map<Id, MemoryUnit>, overlay: map<Id, seq<Link>>, before: map<Id, MemoryUnit>,
               rows: map<Id, seq<Link>>, snapshot: map<Id, MemoryUnit>, units: seq<MemoryUnit>, id: Id)
    requires IsLoad(units, snapshot) && EdgesCut(kv, overlay, before, rows, snapshot, units, |units|, id)
    ensures forall x :: x in kv ==>
              kv[x] == if Points(snapshot, x, id)
                       then before[x].(links := Remaining(snapshot[x].links, id)) else before[x]
    ensures forall x :: x in overlay <==> x in rows || Points(snapshot, x, id)
    ensures forall x :: x in overlay ==>
              overlay[x] == if Points(snapshot, x, id) then Remaining(snapshot[x].links, id) else rows[x]
  {
    forall x | x in snapshot ensures AmongFirst(units, |units|, x) {
      var k := LoadedAt(snapshot, units, x);
    }
  }

  lemma SameAsDeleteOne(t: Tables, snapshot: map<Id, MemoryUnit>, id: Id, kv: map<Id, MemoryUnit>,
                        overlay: map<Id, seq<Link>>)
    requires id in t.kv
    requires forall x :: x in kv <==> x in t.kv && x != id
    requires forall x :: x in kv ==>
               kv[x] == if Points(snapshot, x, id) then t.kv[x].(links := Remaining(snapshot[x].links, id)) else t.kv[x]
    requires forall x :: x in overlay <==> (x in t.overlay && x != id) || Points(snapshot, x, id)
    requires forall x :: x in overlay ==>
               overlay[x] == if Points(snapshot, x, id) then Remaining(snapshot[x].links, id) else t.overlay[x]
    ensures kv == DeleteOne(t, snapshot, id).kv && overlay == DeleteOne(t, snapshot, id).overlay
  {
    var r := DeleteOne(t, snapshot, id);
    forall x ensures x in overlay <==> x in r.overlay {
      assert x in t.overlay.Keys + snapshot.Keys <==> x in t.overlay || x in snapshot;
    }
  }
}
