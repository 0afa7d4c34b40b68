/**
 The documented invariant of a unit's out-edges (`hippmem-core/src/model/unit.rs`) over whole runs of the store:
 deduplicated by (target, type), no self-loops, strengths in [0, 1].
 */
module LinkRuns {
  import opened MemoryModel
  import opened Sorting
  import opened ActivationLogs
  import opened Hebbian
  import opened Decay
  import opened Compaction
  import opened Worker
  import opened Compression
  import opened StoreTables
  import opened Deletion
  import opened StoreRuns

  ghost predicate AllValid(kv: map<Id, MemoryUnit>) {
    forall x :: x in kv ==> ValidLinks(x, kv[x].links)
  }

  // ----- one unit through a consolidation -----

  /** No two edges of one type run into one cluster. */
  predicate NoCollision(links: seq<Link>, into: map<Id, Id>) {
    forall i, j :: 0 <= i < j < |links| ==> !Collide(links[i], links[j], into)
  }

  /** The summaries' ids are new to the unit: neither its own nor a target of the links the cycle leaves it. */
  ghost predicate NewToUnit(id: Id, links: seq<Link>, summaries: seq<Summary>) {
    forall s :: s in summaries ==> s.id != id && forall l :: l in links ==> l.target != s.id
  }

  /** Redirection leaves these links valid: no collision, and a self-loop only where it is redirected itself. */
  predicate Redirectable(id: Id, links: seq<Link>, into: map<Id, Id>) {
    NoCollision(links, into) && (id in into || NoSelfLoop(id, links))
  }

  /** A self-loop survives redirection exactly when its owner is not compressed. */
  lemma SelfLoopAfterRedirection(id: Id, links: seq<Link>, summaries: seq<Summary>)
    requires NewToUnit(id, links, summaries)
    ensures var into := CompressedInto(summaries);
            NoSelfLoop(id, RedirectLinks(links, into)) <==> id in into || NoSelfLoop(id, links)
  {
    var into := CompressedInto(summaries);
    var r := RedirectLinks(links, into);
    forall i | 0 <= i < |links| ensures r[i].target == id <==> links[i].target == id && id !in into {
      assert links[i] in links;
      if links[i].target in into {
        IntoIsSummary(summaries, links[i].target);
      }
    }
    forall l | l in links && l.target == id && id !in into ensures !NoSelfLoop(id, r) {
      var i :| 0 <= i < |links| && links[i] == l;
      assert r[i] in r;
    }
  }

  lemma RedirectedValidExactly(id: Id, links: seq<Link>, summaries: seq<Summary>)
    requires UniqueLinks(links) && StrengthsInRange(links) && NewToUnit(id, links, summaries)
    ensures ValidLinks(id, RedirectLinks(links, CompressedInto(summaries))) <==>
            Redirectable(id, links, CompressedInto(summaries))
  {
    var into := CompressedInto(summaries);
    var r := RedirectLinks(links, into);
    UniquenessSurvivesExactly(links, summaries);
    SelfLoopAfterRedirection(id, links, summaries);
    forall i | 0 <= i < |links| ensures 0.0 <= r[i].strength <= 1.0 {
      assert links[i] in links;
    }
  }

  lemma ConsolidatedValidExactly(u: MemoryUnit, input: CycleInput, curve: Curve, summaries: seq<Summary>)
    requires ValidLinks(u.id, u.links) && NewToUnit(u.id, CycleLinks(u.id, u.links, input, curve), summaries)
    ensures ValidLinks(u.id, Consolidated(u, input, curve, summaries).links) <==>
            Redirectable(u.id, CycleLinks(u.id, u.links, input, curve), CompressedInto(summaries))
  {
    CycleKeepsUnique(u.id, u.links, input, curve);
    MarkKeepsRest(CycleUnit(u, input, curve), summaries);
    RedirectedValidExactly(u.id, CycleLinks(u.id, u.links, input, curve), summaries);
  }

  /**
   No two edges of one type run into one cluster, and no self-loop stays: none is made, as no pair at the threshold
   pairs the unit with itself, or the degree limit cuts it, or the unit is compressed and its self-loop redirected to
   the summary.
   */
  ghost predicate Harmless(id: Id, links: seq<Link>, input: CycleInput, curve: Curve, summaries: seq<Summary>) {
    && NoCollision(CycleLinks(id, links, input, curve), CompressedInto(summaries))
    && (Covers(summaries, id) || NoSelfPair(id, input.pairs) || SelfLoopCut(id, Decayed(id, links, input, curve)))
  }

  /** A unit's invariant survives a consolidation exactly when its pairs and clusters are harmless to it. */
  lemma ConsolidationKeepsExactly(u: MemoryUnit, input: CycleInput, curve: Curve, summaries: seq<Summary>)
    requires ValidLinks(u.id, u.links) && IsCurve(curve)
    requires NewToUnit(u.id, CycleLinks(u.id, u.links, input, curve), summaries)
    ensures ValidLinks(u.id, Consolidated(u, input, curve, summaries).links) <==>
            Harmless(u.id, u.links, input, curve, summaries)
  {
    ConsolidatedValidExactly(u, input, curve, summaries);
    IntoKeys(summaries);
    CycleSettlesExactly(u.id, u.links, input, curve);
    CycleKeepsUnique(u.id, u.links, input, curve);
  }

  // ----- each operation -----

  lemma WriteValidExactly(t: Tables, u: MemoryUnit)
    requires RowsSound(t) && AllValid(t.kv)
    ensures AllValid(WriteStep(t, u, false).kv) <==> WriteRefused(t, u.id, false) || ValidLinks(u.id, u.links)
  {
    if u.id !in t.log {
      assert u.id in WriteStep(t, u, false).kv;
    }
  }

  lemma {:induction false} UsageKeepsLinks(t: Tables, ids: seq<Id>, amount: real)
    ensures var r := UsageAll(t, ids, amount);
            (forall x :: x in r.kv <==> x in t.kv) && forall x :: x in t.kv ==> r.kv[x].links == t.kv[x].links
  {
    if ids != [] {
      UsageKeepsLinks(t, ids[..|ids| - 1], amount);
    }
  }

  lemma ReviewKeepsValid(id: Id, links: seq<Link>, target: Id, delta: real, now: int)
    requires ValidLinks(id, links)
    ensures ValidLinks(id, ReviewLinks(links, target, delta, now))
  {
    var r := ReviewLinks(links, target, delta, now);
    forall i | 0 <= i < |links| ensures SameEdge(r[i], links[i]) && 0.0 <= r[i].strength <= 1.0 {
      assert links[i] in links;
    }
  }

  lemma StrengthenKeepsValid(t: Tables, source: Id, target: Id, delta: real, now: int)
    requires AllValid(t.kv)
    ensures AllValid(StrengthenStep(t, source, target, delta, now).kv)
  {
    if source in t.kv {
      ReviewKeepsValid(source, t.kv[source].links, target, delta, now);
    }
  }

  lemma DeleteKeepsValid(t: Tables, ids: seq<Id>)
    requires AllValid(t.kv)
    ensures AllValid(DeleteStep(t, ids).kv)
  {
    SurvivorsAfterDelete(t, ids);
    var r := DeleteStep(t, ids);
    forall x | x in r.kv ensures ValidLinks(x, r.kv[x].links) {
      match LastHit(t.kv, x, ids) {
        case None =>
        case Some(h) =>
          FilterUnique(t.kv[x].links, NotTo(h));
          FilterMembers(t.kv[x].links, NotTo(h));
      }
    }
  }

  /** Summaries have no out-edges: all they cover is compressed. */
  lemma SummaryLinksEmpty(summaries: seq<Summary>, s: Summary)
    requires s in summaries
    ensures SummaryLinks(s, CompressedInto(summaries)) == []
  {
    var into := CompressedInto(summaries);
    IntoKeys(summaries);
    forall l | l in Elaborations(s.covers) ensures l.target in into {
      assert Covers(summaries, l.target);
    }
    FilterNone(Elaborations(s.covers), NotCompressed(into));
  }

  /** Every row of `after` is a row of `before` or has no links. */
  ghost predicate OnlyLinkless(before: map<Id, MemoryUnit>, after: map<Id, MemoryUnit>) {
    forall x :: x in after ==> (x in before && after[x] == before[x]) || after[x].links == []
  }

  lemma {:induction false} StoredSummariesLinkless(t: Tables, summaries: seq<Summary>, n: nat, stage: Staging)
    requires n <= |summaries|
    ensures OnlyLinkless(t.kv, StoreSummaries(t, summaries, n, CompressedInto(summaries), stage).0.kv)
  {
    if n > 0 {
      var into, s := CompressedInto(summaries), summaries[n - 1];
      var p, r := StoreSummaries(t, summaries, n - 1, into, stage).0, StoreSummaries(t, summaries, n, into, stage).0;
      StoredSummariesLinkless(t, summaries, n - 1, stage);
      StoreSummariesCases(t, summaries, n, into, stage);
      SummaryLinksEmpty(summaries, s);
      LinklessStep(t.kv, p, StagedSummary(stage, n - 1, s), r);
    }
  }

  lemma LinklessStep(kv: map<Id, MemoryUnit>, p: Tables, staged: MemoryUnit, r: Tables)
    requires OnlyLinkless(kv, p.kv) && (r == p || r == StoreSummaryStep(p, staged, []))
    ensures OnlyLinkless(kv, r.kv)
  {
  }

  /** What the theorem takes from the engine: a forgetting curve, and generated summary ids new to the store. */
  ghost predicate NewIds(t: Tables, input: CycleInput, curve: Curve, summaries: seq<Summary>) {
    && IsCurve(curve) && FreshFor(summaries, t)
    && (forall x :: x in t.kv ==> NewToUnit(x, CycleLinks(x, t.kv[x].links, input, curve), summaries))
  }

  ghost predicate AllHarmless(kv: map<Id, MemoryUnit>, input: CycleInput, curve: Curve, summaries: seq<Summary>) {
    forall x :: x in kv ==> Harmless(x, kv[x].links, input, curve, summaries)
  }

  /** The rows of `kv` are rewritten, and whatever else there is has no links. */
  lemma ValidByRow(kv: map<Id, MemoryUnit>, after: map<Id, MemoryUnit>, ok: Id -> bool)
    requires forall x :: x in kv ==> x in after && (ValidLinks(x, after[x].links) <==> ok(x))
    requires forall x :: x in after && x !in kv ==> after[x].links == []
    ensures AllValid(after) <==> forall x :: x in kv ==> ok(x)
  {
  }

  ghost function HarmlessAt(kv: map<Id, MemoryUnit>, input: CycleInput, curve: Curve,
                            summaries: seq<Summary>): Id -> bool {
    (x: Id) => x in kv ==> Harmless(x, kv[x].links, input, curve, summaries)
  }

  lemma AfterValidExactly(kv: map<Id, MemoryUnit>, after: map<Id, MemoryUnit>, input: CycleInput, curve: Curve,
                          summaries: seq<Summary>)
    requires AllValid(kv) && KvAfter(after, kv, input, curve, summaries) && IsCurve(curve)
    requires forall x :: x in kv ==> kv[x].id == x
                                     && NewToUnit(x, CycleLinks(x, kv[x].links, input, curve), summaries)
    requires forall x :: x in after && x !in kv ==> after[x].links == []
    ensures AllValid(after) <==> AllHarmless(kv, input, curve, summaries)
  {
    var ok := HarmlessAt(kv, input, curve, summaries);
    forall x | x in kv ensures x in after && (ValidLinks(x, after[x].links) <==> ok(x)) {
      ConsolidationKeepsExactly(kv[x], input, curve, summaries);
    }
    ValidByRow(kv, after, ok);
  }

  lemma NewRowsLinkless(t: Tables, input: CycleInput, curve: Curve, summaries: seq<Summary>, stage: Staging)
    ensures forall x :: x in ConsolidateStep(t, input, curve, summaries, stage).kv && x !in t.kv ==>
              ConsolidateStep(t, input, curve, summaries, stage).kv[x].links == []
  {
    StoredSummariesLinkless(RewriteStep(t, ConsolidatedBy(input, curve, summaries)), summaries, |summaries|, stage);
  }

  lemma ConsolidateValidExactly(t: Tables, input: CycleInput, curve: Curve, summaries: seq<Summary>, stage: Staging)
    requires RowsSound(t) && AllValid(t.kv) && NewIds(t, input, curve, summaries)
    ensures AllValid(ConsolidateStep(t, input, curve, summaries, stage).kv) <==>
            AllHarmless(t.kv, input, curve, summaries)
  {
    KvAfterConsolidation(t, input, curve, summaries, stage);
    NewRowsLinkless(t, input, curve, summaries, stage);
    AfterValidExactly(t.kv, ConsolidateStep(t, input, curve, summaries, stage).kv, input, curve, summaries);
  }

  // ----- reindexing, row by row -----

  ghost predicate RebuildsAt(rows: nat -> map<Id, MemoryUnit>, order: seq<Id>, units: nat -> MemoryUnit, i: nat)
    requires i < |order|
  {
    rows(i + 1) == rows(i)[order[i] := units(i)]
  }

  /** From empty tables, one id after the other gets its unit. */
  ghost predicate Rebuilds(rows: nat -> map<Id, MemoryUnit>, order: seq<Id>, units: nat -> MemoryUnit) {
    rows(0) == map[] && forall i: nat :: i < |order| ==> RebuildsAt(rows, order, units, i)
  }

  lemma {:induction false} RebuiltRows(rows: nat -> map<Id, MemoryUnit>, order: seq<Id>, units: nat -> MemoryUnit,
                                       n: nat)
    requires Distinct(order) && n <= |order| && Rebuilds(rows, order, units)
    ensures forall x :: x in rows(n) <==> x in order[..n]
    ensures forall i :: 0 <= i < n ==> order[i] in rows(n) && rows(n)[order[i]] == units(i)
  {
    if n > 0 {
      RebuiltRows(rows, order, units, n - 1);
      assert RebuildsAt(rows, order, units, n - 1);
      assert order[..n] == order[..n - 1] + [order[n - 1]];
    }
  }

  /** What a reindex writes for the `i`-th logged id, staged against the tables rebuilt so far. */
  ghost function RewrittenAt(t: Tables, order: seq<Id>, i: nat, restage: Restaging): MemoryUnit
    requires i < |order| && forall id :: id in order ==> id in t.log
  {
    assert order[i] in order;
    Restaged(restage, ReindexFrom(t, order[..i], restage), t.log[order[i]], order[i])
  }

  ghost function RowsAfter(t: Tables, order: seq<Id>, restage: Restaging): nat -> map<Id, MemoryUnit>
    requires forall id :: id in order ==> id in t.log
  {
    (i: nat) => if i <= |order| then ReindexFrom(t, order[..i], restage).kv else map[]
  }

  ghost function UnitsOf(t: Tables, order: seq<Id>, restage: Restaging): nat -> MemoryUnit
    requires order != [] && forall id :: id in order ==> id in t.log
  {
    (i: nat) => RewrittenAt(t, order, if i < |order| then i else 0, restage)
  }

  lemma ReindexAdds(t: Tables, order: seq<Id>, restage: Restaging, i: nat)
    requires i < |order| && forall id :: id in order ==> id in t.log
    ensures RebuildsAt(RowsAfter(t, order, restage), order, UnitsOf(t, order, restage), i)
  {
    var k := i + 1;
    assert order[..k][|order[..k]| - 1] == order[i] && order[..k][..|order[..k]| - 1] == order[..i];
    assert ReindexFrom(t, order[..k], restage).kv ==
      ReindexFrom(t, order[..i], restage).kv[order[i] := RewrittenAt(t, order, i, restage)];
  }

  lemma ReindexBuilds(t: Tables, order: seq<Id>, restage: Restaging)
    requires order != [] && forall id :: id in order ==> id in t.log
    ensures Rebuilds(RowsAfter(t, order, restage), order, UnitsOf(t, order, restage))
  {
    var rows, units := RowsAfter(t, order, restage), UnitsOf(t, order, restage);
    forall i: nat | i < |order| ensures RebuildsAt(rows, order, units, i) {
      ReindexAdds(t, order, restage, i);
    }
    assert order[..0] == [];
  }

  lemma ReindexRows(t: Tables, order: seq<Id>, restage: Restaging)
    requires Distinct(order) && order != [] && forall id :: id in order ==> id in t.log
    ensures forall x :: x in ReindexFrom(t, order, restage).kv <==> x in order
    ensures forall i :: 0 <= i < |order| ==>
              order[i] in ReindexFrom(t, order, restage).kv
              && ReindexFrom(t, order, restage).kv[order[i]] == RewrittenAt(t, order, i, restage)
  {
    ReindexBuilds(t, order, restage);
    RebuiltRows(RowsAfter(t, order, restage), order, UnitsOf(t, order, restage), |order|);
    ReindexRowsAt(t, order, restage);
  }

  lemma ReindexRowsAt(t: Tables, order: seq<Id>, restage: Restaging)
    requires order != [] && forall id :: id in order ==> id in t.log
    ensures order[..|order|] == order && RowsAfter(t, order, restage)(|order|) == ReindexFrom(t, order, restage).kv
    ensures forall i: nat :: i < |order| ==> UnitsOf(t, order, restage)(i) == RewrittenAt(t, order, i, restage)
  {
    assert order[..|order|] == order;
  }

  /** Every unit that is staged again in this order comes with valid links. */
  ghost predicate RebuildsValid(t: Tables, order: seq<Id>, restage: Restaging)
    requires forall id :: id in order ==> id in t.log
  {
    forall i :: 0 <= i < |order| ==> ValidLinks(order[i], RewrittenAt(t, order, i, restage).links)
  }

  ghost predicate RestagesValid(t: Tables, restage: Restaging) {
    RebuildsValid(t, AscendingIds(t.log.Keys), restage)
  }

  lemma AllValidByPosition(kv: map<Id, MemoryUnit>, order: seq<Id>)
    requires forall x :: x in kv <==> x in order
    ensures AllValid(kv) <==> forall i :: 0 <= i < |order| ==> ValidLinks(order[i], kv[order[i]].links)
  {
    forall i | 0 <= i < |order| ensures order[i] in kv {
      assert order[i] in order;
    }
    if forall i :: 0 <= i < |order| ==> ValidLinks(order[i], kv[order[i]].links) {
      forall x | x in kv ensures ValidLinks(x, kv[x].links) {
        var i :| 0 <= i < |order| && order[i] == x;
      }
    }
  }

  lemma RebuildValidExactly(t: Tables, order: seq<Id>, restage: Restaging)
    requires Distinct(order) && forall id :: id in order ==> id in t.log
    ensures AllValid(ReindexFrom(t, order, restage).kv) <==> RebuildsValid(t, order, restage)
  {
    if order != [] {
      ReindexRows(t, order, restage);
      AllValidByPosition(ReindexFrom(t, order, restage).kv, order);
    }
  }

  lemma ReindexValidExactly(t: Tables, restage: Restaging)
    ensures AllValid(ReindexStep(t, restage).kv) <==> RestagesValid(t, restage)
  {
    RebuildValidExactly(t, AscendingIds(t.log.Keys), restage);
  }

  // ----- runs -----

  /** Consolidations forget by a curve and write summaries under new ids; nothing else is asked of any operation. */
  ghost predicate FreshIds(t: Tables, op: Op) {
    op.Consolidate? ==> NewIds(t, op.input, op.curve, op.summaries)
  }

  /** The condition under which an operation keeps the invariant. */
  ghost predicate Careful(t: Tables, op: Op) {
    match op
    case Write(u) => WriteRefused(t, u.id, false) || ValidLinks(u.id, u.links)
    case Usage(_, _) => true
    case Strengthen(_, _, _, _) => true
    case Consolidate(input, curve, summaries, _) => AllHarmless(t.kv, input, curve, summaries)
    case Reindex(restage) => RestagesValid(t, restage)
    case Delete(_) => true
  }

  lemma StepKeepsValidExactly(t: Tables, op: Op)
    requires RowsSound(t) && AllValid(t.kv) && FreshIds(t, op)
    ensures AllValid(Step(t, op).kv) <==> Careful(t, op)
  {
    match op
    case Write(u) => WriteValidExactly(t, u);
    case Usage(ids, signal) => UsageKeepsLinks(t, ids, UsageDelta(signal));
    case Strengthen(source, target, delta, now) => StrengthenKeepsValid(t, source, target, delta, now);
    case Consolidate(input, curve, summaries, stage) => ConsolidateValidExactly(t, input, curve, summaries, stage);
    case Reindex(restage) => ReindexValidExactly(t, restage);
    case Delete(ids) => DeleteKeepsValid(t, ids);
  }

  ghost function EndsValid(): seq<Op> -> bool {
    (ops: seq<Op>) => AllValid(Run(EMPTY, ops).kv)
  }

  ghost function EndsCareful(): seq<Op> -> bool {
    (ops: seq<Op>) => ops == [] || Careful(Run(EMPTY, ops[..|ops| - 1]), ops[|ops| - 1])
  }

  ghost function EndsFresh(): seq<Op> -> bool {
    (ops: seq<Op>) => ops == [] || FreshIds(Run(EMPTY, ops[..|ops| - 1]), ops[|ops| - 1])
  }

  lemma ValidityStep(ops: seq<Op>)
    requires ops != [] && AllValid(Run(EMPTY, ops[..|ops| - 1]).kv) && EndsFresh()(ops)
    ensures EndsValid()(ops) <==> EndsCareful()(ops)
  {
    RunsKeepSound(ops[..|ops| - 1]);
    StepKeepsValidExactly(Run(EMPTY, ops[..|ops| - 1]), ops[|ops| - 1]);
  }

  /**
   Throughout a run that generates fresh summary ids every live unit keeps unique (target, type), no self-loop and
   strengths in range, exactly when every unit written or staged again has valid links, and every
   consolidation is harmless to every unit.
   */
  lemma {:induction false} LinksValidOverRuns(ops: seq<Op>)
    requires EveryPrefix(ops, EndsFresh())
    ensures EveryPrefix(ops, EndsValid()) <==> EveryPrefix(ops, EndsCareful())
  {
    if ops == [] {
      assert ops[..0] == [];
    } else {
      var init := ops[..|ops| - 1];
      ExtendPrefix(ops, EndsFresh());
      ExtendPrefix(ops, EndsValid());
      ExtendPrefix(ops, EndsCareful());
      LinksValidOverRuns(init);
      if EveryPrefix(init, EndsValid()) {
        LastPrefix(init, EndsValid());
        ValidityStep(ops);
      }
    }
  }
}
