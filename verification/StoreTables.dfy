/**
 The store as tables and steps (`hippmem-store/src/kv.rs`, `memory_log.rs`, `graph.rs` and the engine's APIs).
 Each redb transaction is one atomic step; the six inverted-index tables are one map with tagged keys.
 */
module StoreTables {
  import opened MemoryModel
  import opened Sorting
  import opened ActivationLogs
  import opened Worker
  import opened Decay
  import opened Compression

  datatype Tables = Tables(
    log: map<Id, MemoryUnit>, kv: map<Id, MemoryUnit>, overlay: map<Id, seq<Link>>, index: map<Key, seq<Id>>)

  const EMPTY := Tables(map[], map[], map[], map[])

  const U32_MAX: nat := 0xFFFF_FFFF

  // ----- posting lists -----

  function Posting(index: map<Key, seq<Id>>, k: Key): seq<Id> {
    if k in index then index[k] else []
  }

  /** Read, push unless present, write back. */
  function AddPosting(index: map<Key, seq<Id>>, k: Key, id: Id): map<Key, seq<Id>> {
    if id in Posting(index, k) then index else index[k := Posting(index, k) + [id]]
  }

  function AddPostings(index: map<Key, seq<Id>>, keys: seq<Key>, id: Id): map<Key, seq<Id>> {
    if keys == [] then index
    else AddPosting(AddPostings(index, keys[..|keys| - 1], id), keys[|keys| - 1], id)
  }

  function OtherThan(id: Id): Id -> bool {
    (x: Id) => x != id
  }

  /** Strip the id from every list that holds it; a list left empty loses its key. */
  function RemovePostings(index: map<Key, seq<Id>>, id: Id): map<Key, seq<Id>> {
    map k | k in index && (id in index[k] ==> Filter(index[k], OtherThan(id)) != [])
      :: if id in index[k] then Filter(index[k], OtherThan(id)) else index[k]
  }

  predicate KeyOfUnit(u: MemoryUnit, k: Key) {
    k in u.keys || k in u.enrichedKeys
  }

  // ----- steps -----

  predicate WriteRefused(t: Tables, id: Id, skipLog: bool) {
    !skipLog && id in t.log
  }

  /** Persist the staged unit in one transaction, index the enriched keys, re-put the enriched unit. */
  function WriteStep(t: Tables, u: MemoryUnit, skipLog: bool): Tables {
    if WriteRefused(t, u.id, skipLog) then t
    else
      var staged := u.(enrichedKeys := []);
      Tables(if skipLog then t.log else t.log[u.id := staged],
             t.kv[u.id := u],
             t.overlay[u.id := u.links],
             AddPostings(AddPostings(t.index, u.keys, u.id), u.enrichedKeys, u.id))
  }

  function UsageOne(t: Tables, id: Id, amount: real): Tables {
    if id in t.kv then t.(kv := t.kv[id := t.kv[id].(usage := UnitScore(t.kv[id].usage + amount))]) else t
  }

  /** The used ids one after the other; an id named twice moves twice. */
  function UsageAll(t: Tables, ids: seq<Id>, amount: real): Tables {
    if ids == [] then t else UsageOne(UsageAll(t, ids[..|ids| - 1], amount), ids[|ids| - 1], amount)
  }

  function UsageStep(t: Tables, ids: seq<Id>, signal: Signal): Tables {
    if UsageDelta(signal) == 0.0 then t else UsageAll(t, ids, UsageDelta(signal))
  }

  function Review(l: Link, delta: real, now: int): Link {
    l.(strength := UnitScore(Min(l.strength + delta, 1.0)), lastActivatedAt := Some(now),
       activationCount := if l.activationCount < U32_MAX then l.activationCount + 1 else U32_MAX)
  }

  function ReviewLinks(links: seq<Link>, target: Id, delta: real, now: int): (r: seq<Link>)
    ensures |r| == |links|
  {
    seq(|links|, i requires 0 <= i < |links| =>
      if links[i].target == target then Review(links[i], delta, now) else links[i])
  }

  /** The unit and the overlay are updated one after the other, each from its own copy. */
  function StrengthenStep(t: Tables, source: Id, target: Id, delta: real, now: int): Tables {
    t.(kv := if source in t.kv
             then t.kv[source := t.kv[source].(links := ReviewLinks(t.kv[source].links, target, delta, now))] else t.kv,
       overlay := if source in t.overlay
                  then t.overlay[source := ReviewLinks(t.overlay[source], target, delta, now)] else t.overlay)
  }

  /** What a consolidation does to one unit: one cycle, then compression and redirection. */
  function Consolidated(u: MemoryUnit, input: CycleInput, curve: Curve, summaries: seq<Summary>): MemoryUnit {
    CompressUnit(CycleUnit(u, input, curve), summaries)
  }

  function ConsolidatedBy(input: CycleInput, curve: Curve, summaries: seq<Summary>): MemoryUnit -> MemoryUnit {
    (u: MemoryUnit) => Consolidated(u, input, curve, summaries)
  }

  /** Every live unit and its overlay row are rewritten. */
  function RewriteStep(t: Tables, f: MemoryUnit -> MemoryUnit): Tables {
    t.(kv := Rewritten(t.kv, f), overlay := RewrittenRows(t.overlay, t.kv, f))
  }

  function Rewritten(kv: map<Id, MemoryUnit>, f: MemoryUnit -> MemoryUnit): map<Id, MemoryUnit> {
    map id | id in kv :: f(kv[id])
  }

  function RewrittenRows(rows: map<Id, seq<Link>>, kv: map<Id, MemoryUnit>,
                         f: MemoryUnit -> MemoryUnit): map<Id, seq<Link>> {
    map id | id in rows.Keys + kv.Keys :: if id in kv then f(kv[id]).links else rows[id]
  }

  /** A summary is written like any memory; then its links and provenance are put back. */
  function StoreSummaryStep(t: Tables, staged: MemoryUnit, links: seq<Link>): Tables {
    if WriteRefused(t, staged.id, false) then t
    else
      var w := WriteStep(t, staged, false);
      w.(overlay := w.overlay[staged.id := links],
         kv := w.kv[staged.id := w.kv[staged.id].(links := links, byConsolidation := true)])
  }

  /**
   How the engine stages the k-th summary: extraction and linking are not modelled, id and covers are the summary's.
   */
  type Staging = (nat, Summary) -> MemoryUnit

  function StagedSummary(stage: Staging, k: nat, s: Summary): MemoryUnit {
    stage(k, s).(id := s.id, preceding := s.covers, lifecycle := Active)
  }

  /** Stores summaries in order and stops at the first refused write. */
  function StoreSummaries(t: Tables, summaries: seq<Summary>, n: nat, into: map<Id, Id>, stage: Staging): (Tables, bool)
    requires n <= |summaries|
  {
    if n == 0 then (t, true)
    else
      var (t', ok) := StoreSummaries(t, summaries, n - 1, into, stage);
      var s := summaries[n - 1];
      if !ok || WriteRefused(t', s.id, false) then (t', false)
      else (StoreSummaryStep(t', StagedSummary(stage, n - 1, s), SummaryLinks(s, into)), true)
  }

  function ConsolidateStep(t: Tables, input: CycleInput, curve: Curve, summaries: seq<Summary>,
                           stage: Staging): Tables {
    StoreSummaries(RewriteStep(t, ConsolidatedBy(input, curve, summaries)), summaries, |summaries|,
                   CompressedInto(summaries), stage).0
  }

  /** How a logged record is staged again against the tables rebuilt so far. */
  type Restaging = (Tables, MemoryUnit) -> MemoryUnit

  function Restaged(restage: Restaging, t: Tables, u: MemoryUnit, id: Id): MemoryUnit {
    restage(t, u).(id := id, lifecycle := Active, byConsolidation := false)
  }

  function ReindexFrom(t: Tables, order: seq<Id>, restage: Restaging): Tables
    requires forall id :: id in order ==> id in t.log
  {
    if order == [] then t.(kv := map[], overlay := map[], index := map[])
    else
      var id := order[|order| - 1];
      var t' := ReindexFrom(t, order[..|order| - 1], restage);
      WriteStep(t', Restaged(restage, t', t.log[id], id), true)
  }

  // ----- deletion -----

  predicate Points(snapshot: map<Id, MemoryUnit>, x: Id, id: Id) {
    x in snapshot && x != id && exists l :: l in snapshot[x].links && l.target == id
  }

  function NotTo(id: Id): Link -> bool {
    (l: Link) => l.target != id
  }

  function Remaining(links: seq<Link>, id: Id): seq<Link> {
    Filter(links, NotTo(id))
  }

  /** Delete one id: its rows, the links to it as the snapshot saw them, and its postings. */
  function DeleteOne(t: Tables, snapshot: map<Id, MemoryUnit>, id: Id): Tables {
    if id !in t.kv then t
    else
      t.(kv := map x | x in t.kv && x != id ::
                 if Points(snapshot, x, id) then t.kv[x].(links := Remaining(snapshot[x].links, id)) else t.kv[x],
         overlay := map x | x in t.overlay.Keys + snapshot.Keys && x != id &&
           (x in t.overlay || Points(snapshot, x, id)) ::
                      if Points(snapshot, x, id) then Remaining(snapshot[x].links, id) else t.overlay[x],
         index := RemovePostings(t.index, id))
  }

  function DeleteAll(t: Tables, snapshot: map<Id, MemoryUnit>, ids: seq<Id>): Tables {
    if ids == [] then t
    else DeleteOne(DeleteAll(t, snapshot, ids[..|ids| - 1]), snapshot, ids[|ids| - 1])
  }

  function DeleteStep(t: Tables, ids: seq<Id>): Tables {
    DeleteAll(t, t.kv, ids)
  }

  // ----- invariants -----

  /** The overlay is a faithful copy of the links inside the units. */
  ghost predicate OverlayAgrees(t: Tables) {
    t.overlay.Keys == t.kv.Keys && forall id :: id in t.kv ==> t.overlay[id] == t.kv[id].links
  }

  ghost predicate PostingsSound(index: map<Key, seq<Id>>) {
    forall k :: k in index ==> index[k] != [] && Distinct(index[k])
  }

  /** An id is listed under a key exactly when it is live and the key is one of its keys. */
  ghost predicate IndexAgrees(t: Tables) {
    PostingsSound(t.index) &&
    forall k: Key, id :: id in Posting(t.index, k) <==> id in t.kv && KeyOfUnit(t.kv[id], k)
  }

  /** Rows carry their own id, and every live id is logged. */
  ghost predicate RowsSound(t: Tables) {
    && (forall id :: id in t.kv ==> t.kv[id].id == id && id in t.log)
    && (forall id :: id in t.log ==> t.log[id].id == id)
  }

  ghost predicate StoreSound(t: Tables) {
    IndexAgrees(t) && RowsSound(t)
  }

  // ----- posting-list lemmas -----

  lemma AddPostingAt(index: map<Key, seq<Id>>, key: Key, id: Id, k: Key, x: Id)
    ensures x in Posting(AddPosting(index, key, id), k) <==> x in Posting(index, k) || (x == id && k == key)
  {
  }

  lemma AddPostingSound(index: map<Key, seq<Id>>, key: Key, id: Id)
    requires PostingsSound(index)
    ensures PostingsSound(AddPosting(index, key, id))
  {
  }

  lemma {:induction false} AddPostingsAt(index: map<Key, seq<Id>>, keys: seq<Key>, id: Id, k: Key, x: Id)
    ensures x in Posting(AddPostings(index, keys, id), k) <==> x in Posting(index, k) || (x == id && k in keys)
  {
    if keys != [] {
      var init, last := keys[..|keys| - 1], keys[|keys| - 1];
      AddPostingsAt(index, init, id, k, x);
      AddPostingAt(AddPostings(index, init, id), last, id, k, x);
      assert keys == init + [last];
    }
  }

  /** An id is posted at the end of its keys' lists, once, and the other lists stay. */
  lemma {:induction false} PostsAtEnd(index: map<Key, seq<Id>>, keys: seq<Key>, id: Id, k: Key)
    ensures Posting(AddPostings(index, keys, id), k) ==
            Posting(index, k) + if k in keys && id !in Posting(index, k) then [id] else []
  {
    if keys != [] {
      var init, last := keys[..|keys| - 1], keys[|keys| - 1];
      PostsAtEnd(index, init, id, k);
      PostsAtEnd(index, init, id, last);
      assert keys == init + [last];
    }
  }

  lemma {:induction false} AddPostingsSound(index: map<Key, seq<Id>>, keys: seq<Key>, id: Id)
    requires PostingsSound(index)
    ensures PostingsSound(AddPostings(index, keys, id))
  {
    if keys != [] {
      AddPostingsSound(index, keys[..|keys| - 1], id);
      AddPostingSound(AddPostings(index, keys[..|keys| - 1], id), keys[|keys| - 1], id);
    }
  }

  lemma AddPostingsMember(index: map<Key, seq<Id>>, keys: seq<Key>, id: Id)
    requires PostingsSound(index)
    ensures PostingsSound(AddPostings(index, keys, id))
    ensures forall k: Key, x :: x in Posting(AddPostings(index, keys, id), k) <==>
            x in Posting(index, k) || (x == id && k in keys)
  {
    AddPostingsSound(index, keys, id);
    forall k: Key, x
      ensures x in Posting(AddPostings(index, keys, id), k) <==> x in Posting(index, k) || (x == id && k in keys) {
      AddPostingsAt(index, keys, id, k, x);
    }
  }

  lemma RemovePostingsMember(index: map<Key, seq<Id>>, id: Id)
    requires PostingsSound(index)
    ensures PostingsSound(RemovePostings(index, id))
    ensures forall k: Key, x :: x in Posting(RemovePostings(index, id), k) <==> x in Posting(index, k) && x != id
  {
    forall k: Key
      ensures k in RemovePostings(index, id) ==>
              RemovePostings(index, id)[k] != [] && Distinct(RemovePostings(index, id)[k])
      ensures forall x :: x in Posting(RemovePostings(index, id), k) <==> x in Posting(index, k) && x != id
    {
      if k in index {
        FilterMembers(index[k], OtherThan(id));
        FilterDistinct(index[k], OtherThan(id));
      }
    }
  }

  // ----- each step keeps the index and the rows -----

  /** Writing a unit that is not live adds its keys and nothing else. */
  lemma WriteKeepsIndex(t: Tables, u: MemoryUnit, skipLog: bool)
    requires IndexAgrees(t) && u.id !in t.kv
    ensures IndexAgrees(WriteStep(t, u, skipLog))
  {
    if !WriteRefused(t, u.id, skipLog) {
      var mid := AddPostings(t.index, u.keys, u.id);
      AddPostingsMember(t.index, u.keys, u.id);
      AddPostingsMember(mid, u.enrichedKeys, u.id);
      var w := WriteStep(t, u, skipLog);
      forall k: Key, id ensures id in Posting(w.index, k) <==> id in w.kv && KeyOfUnit(w.kv[id], k) {
        assert id in Posting(t.index, k) <==> id in t.kv && KeyOfUnit(t.kv[id], k);
        assert id in Posting(mid, k) <==> id in Posting(t.index, k) || (id == u.id && k in u.keys);
      }
    }
  }

  lemma WriteKeepsSound(t: Tables, u: MemoryUnit)
    requires StoreSound(t)
    ensures StoreSound(WriteStep(t, u, false))
  {
    if u.id !in t.log {
      WriteKeepsIndex(t, u, false);
    }
  }

  /** Replacing units without touching ids and keys keeps the index right. */
  lemma SameKeysKeepIndex(t: Tables, after: Tables)
    requires StoreSound(t) && after.index == t.index && after.log == t.log && after.kv.Keys == t.kv.Keys
    requires forall id :: id in t.kv ==>
               after.kv[id].id == t.kv[id].id && after.kv[id].keys == t.kv[id].keys &&
                 after.kv[id].enrichedKeys == t.kv[id].enrichedKeys
    ensures StoreSound(after)
  {
    forall k: Key, id ensures id in Posting(after.index, k) <==> id in after.kv && KeyOfUnit(after.kv[id], k) {
      assert id in Posting(t.index, k) <==> id in t.kv && KeyOfUnit(t.kv[id], k);
      assert id in t.kv <==> id in t.kv.Keys;
      assert id in after.kv <==> id in after.kv.Keys;
    }
  }

  lemma ConsolidatedKeeps(u: MemoryUnit, input: CycleInput, curve: Curve, summaries: seq<Summary>)
    ensures var v := Consolidated(u, input, curve, summaries);
            v == u.(links := v.links, lifecycle := v.lifecycle)
  {
    RedirectionConserves(CycleUnit(u, input, curve), summaries);
  }

  /** The change touches neither ids nor keys. */
  ghost predicate KeepsKeys(f: MemoryUnit -> MemoryUnit) {
    forall u: MemoryUnit :: f(u).id == u.id && f(u).keys == u.keys && f(u).enrichedKeys == u.enrichedKeys
  }

  lemma ConsolidationKeepsKeys(input: CycleInput, curve: Curve, summaries: seq<Summary>)
    ensures KeepsKeys(ConsolidatedBy(input, curve, summaries))
  {
    var f := ConsolidatedBy(input, curve, summaries);
    forall u: MemoryUnit ensures f(u).id == u.id && f(u).keys == u.keys && f(u).enrichedKeys == u.enrichedKeys {
      ConsolidatedKeeps(u, input, curve, summaries);
    }
  }

  lemma RewriteKeeps(t: Tables, f: MemoryUnit -> MemoryUnit)
    requires KeepsKeys(f)
    ensures Keeps(t, RewriteStep(t, f))
  {
    var r := RewriteStep(t, f);
    assert r.kv.Keys == t.kv.Keys;
    if StoreSound(t) {
      SameKeysKeepIndex(t, r);
    }
  }

  /** `after` is as sound and as consistent as `before`, and its log extends it. */
  ghost predicate Keeps(before: Tables, after: Tables) {
    && (StoreSound(before) ==> StoreSound(after))
    && (OverlayAgrees(before) ==> OverlayAgrees(after))
    && LogGrows(before, after)
  }

  ghost predicate LogGrows(before: Tables, after: Tables) {
    forall id :: id in before.log ==> id in after.log && after.log[id] == before.log[id]
  }

  lemma StoreSummaryKeeps(t: Tables, staged: MemoryUnit, links: seq<Link>)
    ensures Keeps(t, StoreSummaryStep(t, staged, links))
  {
    if StoreSound(t) && !WriteRefused(t, staged.id, false) {
      WriteKeepsSound(t, staged);
      SameKeysKeepIndex(WriteStep(t, staged, false), StoreSummaryStep(t, staged, links));
    }
  }

  lemma KeepsTransitive(a: Tables, b: Tables, c: Tables)
    requires Keeps(a, b) && Keeps(b, c)
    ensures Keeps(a, c)
  {
  }

  lemma StoreSummariesCases(t: Tables, summaries: seq<Summary>, n: nat, into: map<Id, Id>, stage: Staging)
    requires 0 < n <= |summaries|
    ensures var p := StoreSummaries(t, summaries, n - 1, into, stage).0;
            var r := StoreSummaries(t, summaries, n, into, stage).0;
            var s := summaries[n - 1];
            r == p || r == StoreSummaryStep(p, StagedSummary(stage, n - 1, s), SummaryLinks(s, into))
  {
  }

  lemma {:induction false} StoreSummariesKeep(t: Tables, summaries: seq<Summary>, n: nat, into: map<Id, Id>,
                                              stage: Staging)
    requires n <= |summaries|
    ensures Keeps(t, StoreSummaries(t, summaries, n, into, stage).0)
  {
    if n > 0 {
      StoreSummariesKeep(t, summaries, n - 1, into, stage);
      StoreSummariesCases(t, summaries, n, into, stage);
      var p, r := StoreSummaries(t, summaries, n - 1, into, stage).0, StoreSummaries(t, summaries, n, into, stage).0;
      if r != p {
        var s := summaries[n - 1];
        StoreSummaryKeeps(p, StagedSummary(stage, n - 1, s), SummaryLinks(s, into));
        KeepsTransitive(t, p, r);
      }
    }
  }

  lemma ConsolidateKeeps(t: Tables, input: CycleInput, curve: Curve, summaries: seq<Summary>, stage: Staging)
    ensures Keeps(t, ConsolidateStep(t, input, curve, summaries, stage))
  {
    var f := ConsolidatedBy(input, curve, summaries);
    var w := RewriteStep(t, f);
    ConsolidationKeepsKeys(input, curve, summaries);
    RewriteKeeps(t, f);
    StoreSummariesKeep(w, summaries, |summaries|, CompressedInto(summaries), stage);
    KeepsTransitive(t, w, ConsolidateStep(t, input, curve, summaries, stage));
  }

  lemma StrengthenKeeps(t: Tables, source: Id, target: Id, delta: real, now: int)
    ensures Keeps(t, StrengthenStep(t, source, target, delta, now))
  {
    if StoreSound(t) {
      SameKeysKeepIndex(t, StrengthenStep(t, source, target, delta, now));
    }
  }

  lemma UsageOneKeeps(t: Tables, id: Id, amount: real)
    ensures Keeps(t, UsageOne(t, id, amount))
  {
    if StoreSound(t) {
      SameKeysKeepIndex(t, UsageOne(t, id, amount));
    }
  }

  lemma {:induction false} UsageKeeps(t: Tables, ids: seq<Id>, amount: real)
    ensures Keeps(t, UsageAll(t, ids, amount))
  {
    if ids != [] {
      var p := UsageAll(t, ids[..|ids| - 1], amount);
      UsageKeeps(t, ids[..|ids| - 1], amount);
      UsageOneKeeps(p, ids[|ids| - 1], amount);
      KeepsTransitive(t, p, UsageAll(t, ids, amount));
    }
  }

  lemma ClampedSteps(usage: real, so: real, amount: real)
    requires 0.0 <= usage <= 1.0 && (amount >= 0.0 ==> so >= 0.0) && (amount <= 0.0 ==> so <= 0.0)
    ensures UnitScore(UnitScore(usage + so) + amount) == UnitScore(usage + (so + amount))
  {
  }

  lemma {:induction false} TimesSign(amount: real, n: nat)
    ensures amount >= 0.0 ==> Times(amount, n) >= 0.0
    ensures amount <= 0.0 ==> Times(amount, n) <= 0.0
  {
    if n > 0 {
      TimesSign(amount, n - 1);
    }
  }

  /** The unit after its id was named `n` times. */
  ghost function Moved(u: MemoryUnit, n: nat, amount: real): MemoryUnit {
    u.(usage := if n == 0 then u.usage else UnitScore(u.usage + Times(amount, n)))
  }

  ghost predicate AllMoved(kv: map<Id, MemoryUnit>, after: map<Id, MemoryUnit>, ids: seq<Id>, amount: real) {
    && (forall id :: id in after <==> id in kv)
    && (forall id :: id in kv ==> after[id] == Moved(kv[id], multiset(ids)[id], amount))
  }

  lemma MovedOnce(u: MemoryUnit, n: nat, amount: real)
    requires 0.0 <= u.usage <= 1.0
    ensures Moved(u, n, amount).(usage := UnitScore(Moved(u, n, amount).usage + amount)) == Moved(u, n + 1, amount)
  {
    TimesSign(amount, n);
    ClampedSteps(u.usage, Times(amount, n), amount);
  }

  lemma MovesOne(kv: map<Id, MemoryUnit>, so: map<Id, MemoryUnit>, init: seq<Id>, last: Id, amount: real)
    requires (forall id :: id in kv ==> 0.0 <= kv[id].usage <= 1.0) && AllMoved(kv, so, init, amount)
    ensures AllMoved(kv,
                     if last in so then so[last := so[last].(usage := UnitScore(so[last].usage + amount))] else so,
                     init + [last], amount)
  {
    forall id ensures multiset(init + [last])[id] == multiset(init)[id] + if id == last then 1 else 0 {
    }
    if last in kv {
      MovedOnce(kv[last], multiset(init)[last], amount);
    }
  }

  /** Clamping at every step comes to clamping once: a unit moves by the amount for each time its id is named. */
  lemma {:induction false} UsageClosedForm(t: Tables, ids: seq<Id>, amount: real)
    requires forall id :: id in t.kv ==> 0.0 <= t.kv[id].usage <= 1.0
    ensures var r := UsageAll(t, ids, amount);
            r == t.(kv := r.kv) && AllMoved(t.kv, r.kv, ids, amount)
  {
    if ids != [] {
      var init, last := ids[..|ids| - 1], ids[|ids| - 1];
      UsageClosedForm(t, init, amount);
      MovesOne(t.kv, UsageAll(t, init, amount).kv, init, last, amount);
      assert ids == init + [last];
    }
  }

  /** Reindexing rebuilds every table from the log: all logged ids are live again, deleted ones included. */
  lemma {:induction false} ReindexRebuilds(t: Tables, order: seq<Id>, restage: Restaging)
    requires Distinct(order) && (forall id :: id in order ==> id in t.log)
    requires forall id :: id in t.log ==> t.log[id].id == id
    ensures var r := ReindexFrom(t, order, restage);
            r.log == t.log && StoreSound(r) && OverlayAgrees(r) && forall id :: id in r.kv <==> id in order
  {
    if order != [] {
      var init, id := order[..|order| - 1], order[|order| - 1];
      ReindexRebuilds(t, init, restage);
      assert order == init + [id] && id !in init;
      var t' := ReindexFrom(t, init, restage);
      RebuildsOne(t', t, Restaged(restage, t', t.log[id], id));
    }
  }

  lemma RebuildsOne(p: Tables, t: Tables, u: MemoryUnit)
    requires p.log == t.log && StoreSound(p) && OverlayAgrees(p) && u.id in t.log && u.id !in p.kv
    ensures var r := WriteStep(p, u, true);
            r.log == t.log && StoreSound(r) && OverlayAgrees(r) && r.kv.Keys == p.kv.Keys + {u.id}
  {
    WriteKeepsIndex(p, u, true);
  }

  /** Deleting one id keeps index and rows, whatever the snapshot. */
  lemma DeleteKeepsSound(t: Tables, snapshot: map<Id, MemoryUnit>, id: Id)
    requires StoreSound(t)
    ensures StoreSound(DeleteOne(t, snapshot, id))
    ensures DeleteOne(t, snapshot, id).kv.Keys == t.kv.Keys - {id} && DeleteOne(t, snapshot, id).log == t.log
  {
    if id in t.kv {
      RemovePostingsMember(t.index, id);
      var r := DeleteOne(t, snapshot, id);
      assert r.kv.Keys == t.kv.Keys - {id};
      forall k: Key, x ensures x in Posting(r.index, k) <==> x in r.kv && KeyOfUnit(r.kv[x], k) {
        assert x in Posting(t.index, k) <==> x in t.kv && KeyOfUnit(t.kv[x], k);
      }
    }
  }

  lemma {:induction false} DeleteAllKeepsSound(t: Tables, snapshot: map<Id, MemoryUnit>, ids: seq<Id>)
    requires StoreSound(t)
    ensures StoreSound(DeleteAll(t, snapshot, ids)) && DeleteAll(t, snapshot, ids).log == t.log
    ensures forall x :: x in DeleteAll(t, snapshot, ids).kv <==> x in t.kv && x !in ids
  {
    if ids != [] {
      DeleteAllKeepsSound(t, snapshot, ids[..|ids| - 1]);
      assert ids == ids[..|ids| - 1] + [ids[|ids| - 1]];
      var r := DeleteAll(t, snapshot, ids[..|ids| - 1]);
      DeleteKeepsSound(r, snapshot, ids[|ids| - 1]);
      var d := DeleteOne(r, snapshot, ids[|ids| - 1]);
      forall x ensures x in d.kv <==> x in t.kv && x !in ids {
        assert x in d.kv <==> x in d.kv.Keys;
        assert x in r.kv <==> x in r.kv.Keys;
      }
    }
  }

  // ----- what feedback does, in numbers -----

  /** What a signal adds to the usage score of a memory. */
  ghost predicate SignalStep(step: real, signal: Signal) {
    match signal
    case UserConfirmedCorrect => step == 0.10
    case TaskSucceeded => step == 0.08
    case Referenced => step == 0.05
    case UserRejected => step == -0.10
    case OtherSignal => step == 0.0
  }

  /** It does so for each naming, and the score stays within [0, 1]. */
  ghost predicate UsageMoved(u: MemoryUnit, r: MemoryUnit, times: nat, signal: Signal) {
    exists step :: SignalStep(step, signal)
      && var moved := u.usage + step * times as real;
         r == u.(usage := if moved < 0.0 then 0.0 else if moved > 1.0 then 1.0 else moved)
  }

  lemma UsageMovedBy(u: MemoryUnit, times: nat, signal: Signal)
    requires 0.0 <= u.usage <= 1.0
    ensures UsageMoved(u, Moved(u, times, UsageDelta(signal)), times, signal)
  {
    assert SignalStep(UsageDelta(signal), signal);
    TimesIsProduct(UsageDelta(signal), times);
  }

  lemma UsageExactly(t: Tables, ids: seq<Id>, signal: Signal)
    requires forall id :: id in t.kv ==> 0.0 <= t.kv[id].usage <= 1.0
    ensures var r := UsageStep(t, ids, signal);
            && r == t.(kv := r.kv) && r.kv.Keys == t.kv.Keys
            && forall id :: id in t.kv ==> UsageMoved(t.kv[id], r.kv[id], multiset(ids)[id], signal)
  {
    UsageStepMoves(t, ids, signal);
    forall id | id in t.kv
      ensures UsageMoved(t.kv[id], UsageStep(t, ids, signal).kv[id], multiset(ids)[id], signal)
    {
      UsageMovedBy(t.kv[id], multiset(ids)[id], signal);
    }
  }

  lemma UsageStepMoves(t: Tables, ids: seq<Id>, signal: Signal)
    requires forall id :: id in t.kv ==> 0.0 <= t.kv[id].usage <= 1.0
    ensures var r := UsageStep(t, ids, signal);
            r == t.(kv := r.kv) && AllMoved(t.kv, r.kv, ids, UsageDelta(signal))
  {
    UsageClosedForm(t, ids, UsageDelta(signal));
    if UsageDelta(signal) == 0.0 {
      forall id | id in t.kv ensures Moved(t.kv[id], multiset(ids)[id], 0.0) == t.kv[id] {
        TimesIsProduct(0.0, multiset(ids)[id]);
      }
    }
  }

  /** A confirmed path strengthens every link to the target, up to 1, at this time, as one activation more. */
  ghost predicate ReviewedTo(links: seq<Link>, r: seq<Link>, target: Id, delta: real, now: int) {
    |r| == |links| && forall i :: 0 <= i < |links| ==>
      if links[i].target != target then r[i] == links[i]
      else
        var s := links[i].strength + delta;
        r[i] == links[i].(strength := if s < 0.0 then 0.0 else if s > 1.0 then 1.0 else s,
                          lastActivatedAt := Some(now),
                          activationCount := if links[i].activationCount >= 4_294_967_295 then 4_294_967_295
                                             else links[i].activationCount + 1)
  }

  /** Only the links of the source change, in the unit and in the overlay alike. */
  lemma StrengthenExactly(t: Tables, source: Id, target: Id, delta: real, now: int)
    ensures var r := StrengthenStep(t, source, target, delta, now);
            && r == t.(kv := r.kv, overlay := r.overlay) && r.kv.Keys == t.kv.Keys && r.overlay.Keys == t.overlay.Keys
            && (forall x :: x in t.kv && x != source ==> r.kv[x] == t.kv[x])
            && (forall x :: x in t.overlay && x != source ==> r.overlay[x] == t.overlay[x])
            && (source in t.kv ==>
                  && r.kv[source] == t.kv[source].(links := r.kv[source].links)
                  && ReviewedTo(t.kv[source].links, r.kv[source].links, target, delta, now))
            && (source in t.overlay ==> ReviewedTo(t.overlay[source], r.overlay[source], target, delta, now))
  {
  }
}
