/**
 Turning planned clusters into summaries (`hippmem-engine/src/consolidate_api.rs`): confidence gating, marking
 sources as compressed, redirecting their in-edges, and why a second pass creates nothing.
 */
module Compression {
  import opened MemoryModel
  import opened Sorting
  import opened Summaries

  /** A summary about to be stored: its generated id and the ids it covers. */
  datatype Summary = Summary(id: Id, covers: seq<Id>)

  /** The deterministic summarizer's confidence, 0.05 per source up to 0.6, must reach 0.35. */
  predicate Confident(covers: seq<Id>) {
    Min(Scale(|covers| as real, 0.05), 0.6) >= 0.35
  }

  /** The id of the k-th summary comes from a generator. */
  function SummariesFor(clusters: seq<seq<Id>>, gate: seq<Id> -> bool, generate: nat -> Id): seq<Summary> {
    if clusters == [] then []
    else
      var k := |clusters| - 1;
      SummariesFor(clusters[..k], gate, generate) +
        (if gate(clusters[k]) then [Summary(generate(k), clusters[k])] else [])
  }

  method BuildSummaries(clusters: seq<seq<Id>>, generate: nat -> Id) returns (summaries: seq<Summary>)
    ensures summaries == SummariesFor(clusters, Confident, generate)
    ensures forall ids :: Summarised(ids, summaries) <==> ids in clusters && |ids| >= 7
  {
    summaries := [];
    for k := 0 to |clusters|
      invariant summaries == SummariesFor(clusters[..k], Confident, generate)
    {
      assert clusters[..k + 1][..k] == clusters[..k];
      if Confident(clusters[k]) {
        summaries := summaries + [Summary(generate(k), clusters[k])];
      }
    }
    assert clusters[..|clusters|] == clusters;
    SummarisedIsGated(clusters, Confident, generate);
    forall ids ensures Confident(ids) <==> |ids| >= 7 {
      ConfidentFromSeven(ids);
    }
  }

  /** Seven sources are needed for a confident summary, and enough. */
  lemma ConfidentFromSeven(covers: seq<Id>)
    ensures Confident(covers) <==> |covers| >= 7
  {
    if |covers| >= 7 {
      assert |covers| as real >= 7.0;
    } else {
      assert |covers| as real <= 6.0;
    }
  }

  /** The summaries cover the groups worth summarising that have seven members, by rising first id. */
  ghost predicate SummariesOf(summaries: seq<Summary>, gs: seq<seq<Candidate>>, params: PlanParams) {
    && (forall ids :: Summarised(ids, summaries) <==>
          exists g :: g in gs && |g| >= 7 && WorthSummarising(g, params) && ListsIds(ids, g))
    && RisingSummaries(summaries)
  }

  ghost predicate Summarised(ids: seq<Id>, summaries: seq<Summary>) {
    exists s :: s in summaries && s.covers == ids
  }

  lemma {:induction false} SummarisedIsGated(clusters: seq<seq<Id>>, gate: seq<Id> -> bool, generate: nat -> Id)
    ensures forall ids :: Summarised(ids, SummariesFor(clusters, gate, generate)) <==> ids in clusters && gate(ids)
  {
    var r := SummariesFor(clusters, gate, generate);
    if clusters != [] {
      var k := |clusters| - 1;
      var earlier := SummariesFor(clusters[..k], gate, generate);
      SummarisedIsGated(clusters[..k], gate, generate);
      assert clusters == clusters[..k] + [clusters[k]];
      forall ids ensures Summarised(ids, r) <==> ids in clusters && gate(ids) {
        assert Summarised(ids, earlier) <==> ids in clusters[..k] && gate(ids);
        if ids == clusters[k] && gate(ids) {
          assert Summary(generate(k), ids) in r;
        }
      }
    }
  }

  ghost predicate RisingSummaries(summaries: seq<Summary>) {
    forall i, j :: 0 <= i < j < |summaries| ==>
      summaries[i].covers != [] && summaries[j].covers != [] && summaries[i].covers[0] < summaries[j].covers[0]
  }

  lemma {:induction false} SummariesRise(clusters: seq<seq<Id>>, gate: seq<Id> -> bool, generate: nat -> Id)
    requires RisingClusters(clusters)
    ensures RisingSummaries(SummariesFor(clusters, gate, generate))
  {
    if clusters != [] {
      var k := |clusters| - 1;
      var earlier := SummariesFor(clusters[..k], gate, generate);
      assert forall i :: 0 <= i < k ==> clusters[..k][i] == clusters[i];
      assert RisingClusters(clusters[..k]);
      SummariesRise(clusters[..k], gate, generate);
      SummarisedIsGated(clusters[..k], gate, generate);
      forall s | s in earlier ensures s.covers != [] && clusters[k] != [] && s.covers[0] < clusters[k][0] {
        assert Summarised(s.covers, earlier);
        var m :| 0 <= m < k && clusters[m] == s.covers;
      }
      AppendSummary(earlier, Summary(generate(k), clusters[k]));
    }
  }

  lemma AppendSummary(earlier: seq<Summary>, last: Summary)
    requires RisingSummaries(earlier)
    requires forall s :: s in earlier ==> s.covers != [] && last.covers != [] && s.covers[0] < last.covers[0]
    ensures RisingSummaries(earlier + [last])
  {
    assert forall i :: 0 <= i < |earlier| ==> earlier[i] in earlier;
  }

  /** Which texts are summarised depends on their words, sizes and importances alone. */
  lemma SummariesByWords(units: seq<MemoryUnit>, params: PlanParams, generate: nat -> Id)
    requires UniqueIds(units)
    ensures exists gs :: GroupedByWords(gs, units, params.similarity)
              && SummariesOf(SummariesFor(Plan(units, TextJaccard, params), Confident, generate), gs, params)
  {
    var gs, clusters := Groups(Candidates(units), TextJaccard, params.similarity), Plan(units, TextJaccard, params);
    GroupsByWords(units, params.similarity);
    PlanByWords(units, params);
    SummariesRise(clusters, Confident, generate);
    SevenOfClusters(clusters, gs, params, generate);
  }

  lemma SevenOfClusters(clusters: seq<seq<Id>>, gs: seq<seq<Candidate>>, params: PlanParams, generate: nat -> Id)
    requires ClustersOf(clusters, gs, params) && RisingSummaries(SummariesFor(clusters, Confident, generate))
    ensures SummariesOf(SummariesFor(clusters, Confident, generate), gs, params)
  {
    var summaries := SummariesFor(clusters, Confident, generate);
    SummarisedIsGated(clusters, Confident, generate);
    forall ids ensures Summarised(ids, summaries) <==>
                       exists g :: g in gs && |g| >= 7 && WorthSummarising(g, params) && ListsIds(ids, g) {
      ConfidentFromSeven(ids);
      if Summarised(ids, summaries) {
        var g :| g in gs && WorthSummarising(g, params) && ListsIds(ids, g);
        assert |g| >= 7;
      }
    }
  }

  // ----- marking -----

  function MarkUnit(u: MemoryUnit, summaries: seq<Summary>): MemoryUnit {
    if summaries == [] then u
    else
      var s, v := summaries[|summaries| - 1], MarkUnit(u, summaries[..|summaries| - 1]);
      if v.id in s.covers then v.(lifecycle := Compressed(s.id)) else v
  }

  method MarkCompressed(units: array<MemoryUnit>, summaries: seq<Summary>)
    modifies units
    ensures forall i :: 0 <= i < units.Length ==> units[i] == MarkUnit(old(units[i]), summaries)
  {
    for k := 0 to |summaries|
      invariant forall i :: 0 <= i < units.Length ==> units[i] == MarkUnit(old(units[i]), summaries[..k])
    {
      assert summaries[..k + 1][..k] == summaries[..k];
      for i := 0 to units.Length
        invariant forall j :: 0 <= j < units.Length ==>
                    units[j] == MarkUnit(old(units[j]), if j < i then summaries[..k + 1] else summaries[..k])
      {
        if units[i].id in summaries[k].covers {
          units[i] := units[i].(lifecycle := Compressed(summaries[k].id));
        }
      }
    }
    assert summaries[..|summaries|] == summaries;
  }

  // ----- redirecting -----

  function InsertCovers(into: map<Id, Id>, covers: seq<Id>, id: Id): map<Id, Id> {
    if covers == [] then into else InsertCovers(into, covers[..|covers| - 1], id)[covers[|covers| - 1] := id]
  }

  /** Source id to summary id, later insertions winning. */
  function CompressedInto(summaries: seq<Summary>): map<Id, Id> {
    if summaries == [] then map[]
    else
      var s := summaries[|summaries| - 1];
      InsertCovers(CompressedInto(summaries[..|summaries| - 1]), s.covers, s.id)
  }

  method BuildCompressedInto(summaries: seq<Summary>) returns (into: map<Id, Id>)
    ensures into == CompressedInto(summaries)
  {
    into := map[];
    for k := 0 to |summaries|
      invariant into == CompressedInto(summaries[..k])
    {
      assert summaries[..k + 1][..k] == summaries[..k];
      var s := summaries[k];
      ghost var base := into;
      for j := 0 to |s.covers|
        invariant into == InsertCovers(base, s.covers[..j], s.id)
      {
        assert s.covers[..j + 1][..j] == s.covers[..j];
        into := into[s.covers[j] := s.id];
      }
      assert s.covers[..|s.covers|] == s.covers;
    }
    assert summaries[..|summaries|] == summaries;
  }

  function RedirectedNote(note: Option<string>): Option<string> {
    match note
    case Some(n) => Some(n + " [redirected to summary]")
    case None => Some("redirected to summary")
  }

  function RedirectLink(l: Link, into: map<Id, Id>): Link {
    if l.target in into then l.(target := into[l.target], note := RedirectedNote(l.note)) else l
  }

  function RedirectLinks(links: seq<Link>, into: map<Id, Id>): (r: seq<Link>)
    ensures |r| == |links|
  {
    seq(|links|, i requires 0 <= i < |links| => RedirectLink(links[i], into))
  }

  function RedirectUnit(u: MemoryUnit, into: map<Id, Id>): MemoryUnit {
    u.(links := RedirectLinks(u.links, into))
  }

  method RedirectInEdges(units: array<MemoryUnit>, into: map<Id, Id>)
    modifies units
    ensures forall i :: 0 <= i < units.Length ==> units[i] == RedirectUnit(old(units[i]), into)
  {
    if into == map[] {
      forall i | 0 <= i < units.Length ensures units[i] == RedirectUnit(units[i], into) {
        assert RedirectLinks(units[i].links, into) == units[i].links;
      }
      return;
    }
    for i := 0 to units.Length
      invariant forall j :: 0 <= j < units.Length ==>
                  units[j] == if j < i then RedirectUnit(old(units[j]), into) else old(units[j])
    {
      var links := units[i].links;
      for k := 0 to |links|
        invariant |links| == |units[i].links|
        invariant forall j :: 0 <= j < |links| ==>
                    links[j] == if j < k then RedirectLink(units[i].links[j], into) else units[i].links[j]
      {
        links := links[k := RedirectLink(links[k], into)];
      }
      assert links == RedirectLinks(units[i].links, into);
      units[i] := units[i].(links := links);
    }
  }

  /** Marking, then redirecting. */
  function CompressUnit(u: MemoryUnit, summaries: seq<Summary>): MemoryUnit {
    RedirectUnit(MarkUnit(u, summaries), CompressedInto(summaries))
  }

  method CompressAndRedirect(units: array<MemoryUnit>, summaries: seq<Summary>) returns (into: map<Id, Id>)
    modifies units
    ensures forall i :: 0 <= i < units.Length ==> units[i] == CompressUnit(old(units[i]), summaries)
    ensures into == CompressedInto(summaries)
  {
    MarkCompressed(units, summaries);
    into := BuildCompressedInto(summaries);
    RedirectInEdges(units, into);
  }

  // ----- the out-edges of a stored summary -----

  function Elaborations(covers: seq<Id>): (r: seq<Link>)
    ensures |r| == |covers|
    ensures forall l :: l in r ==> l.target in covers
  {
    seq(|covers|, i requires 0 <= i < |covers| =>
      Link(covers[i], Elaboration, 0.5, 0.6, Some("summary covers"), 0, None, 0, Confirmed))
  }

  function NotCompressed(into: map<Id, Id>): Link -> bool {
    (l: Link) => l.target !in into
  }

  function SummaryLinks(s: Summary, into: map<Id, Id>): seq<Link> {
    Filter(Elaborations(s.covers), NotCompressed(into))
  }

  // ----- who covers whom -----

  /** Clusters do not overlap and generated ids are new: not a source, not each other. */
  ghost predicate SoundSummaries(summaries: seq<Summary>) {
    && DisjointCovers(summaries) && DistinctIds(summaries)
    && (forall s, t :: s in summaries && t in summaries ==> s.id !in t.covers)
  }

  ghost predicate DisjointCovers(summaries: seq<Summary>) {
    forall i, j, x :: 0 <= i < j < |summaries| && x in summaries[i].covers ==> x !in summaries[j].covers
  }

  ghost predicate DistinctIds(summaries: seq<Summary>) {
    forall i, j :: 0 <= i < j < |summaries| ==> summaries[i].id != summaries[j].id
  }

  ghost predicate Covers(summaries: seq<Summary>, x: Id) {
    exists s :: s in summaries && x in s.covers
  }

  lemma {:induction false} InsertCoversAt(into: map<Id, Id>, covers: seq<Id>, id: Id)
    ensures forall x :: x in InsertCovers(into, covers, id) <==> x in into || x in covers
    ensures forall x :: x in InsertCovers(into, covers, id) ==>
              InsertCovers(into, covers, id)[x] == if x in covers then id else into[x]
  {
    if covers != [] {
      InsertCoversAt(into, covers[..|covers| - 1], id);
      assert covers == covers[..|covers| - 1] + [covers[|covers| - 1]];
    }
  }

  lemma {:induction false} IntoKeys(summaries: seq<Summary>)
    ensures forall x :: x in CompressedInto(summaries) <==> Covers(summaries, x)
  {
    if summaries != [] {
      var init, s := summaries[..|summaries| - 1], summaries[|summaries| - 1];
      IntoKeys(init);
      InsertCoversAt(CompressedInto(init), s.covers, s.id);
      assert summaries == init + [s];
      forall x ensures x in CompressedInto(summaries) <==> Covers(summaries, x) {
        assert Covers(summaries, x) <==> Covers(init, x) || x in s.covers by {
          assert s in summaries && forall t :: t in summaries <==> t in init || t == s;
        }
      }
    }
  }

  /** Each covered source maps to the one summary that covers it, and its unit says so. */
  lemma {:induction false} SourceHasOneSummary(summaries: seq<Summary>, k: nat, u: MemoryUnit)
    requires SoundSummaries(summaries) && k < |summaries| && u.id in summaries[k].covers
    ensures u.id in CompressedInto(summaries) && CompressedInto(summaries)[u.id] == summaries[k].id
    ensures MarkUnit(u, summaries) == u.(lifecycle := Compressed(summaries[k].id))
    ensures forall j :: 0 <= j < |summaries| && u.id in summaries[j].covers ==> j == k
  {
    var init, s := summaries[..|summaries| - 1], summaries[|summaries| - 1];
    assert forall t :: t in init ==> t in summaries;
    InsertCoversAt(CompressedInto(init), s.covers, s.id);
    if k == |summaries| - 1 {
      MarkKeepsRest(u, init);
    } else {
      assert SoundSummaries(init);
      SourceHasOneSummary(init, k, u);
      assert u.id !in s.covers;
    }
  }

  lemma {:induction false} MarkKeepsRest(u: MemoryUnit, summaries: seq<Summary>)
    ensures MarkUnit(u, summaries) == u.(lifecycle := MarkUnit(u, summaries).lifecycle)
    ensures !Covers(summaries, u.id) ==> MarkUnit(u, summaries) == u
    ensures Covers(summaries, u.id) ==> MarkUnit(u, summaries).lifecycle.Compressed?
  {
    if summaries != [] {
      var init, s := summaries[..|summaries| - 1], summaries[|summaries| - 1];
      MarkKeepsRest(u, init);
      assert summaries == init + [s];
      assert Covers(summaries, u.id) <==> Covers(init, u.id) || u.id in s.covers by {
        assert s in summaries && forall t :: t in summaries <==> t in init || t == s;
      }
    }
  }

  lemma {:induction false} IntoIsSummary(summaries: seq<Summary>, x: Id)
    requires x in CompressedInto(summaries)
    ensures exists s :: s in summaries && x in s.covers && CompressedInto(summaries)[x] == s.id
  {
    var init, s := summaries[..|summaries| - 1], summaries[|summaries| - 1];
    InsertCoversAt(CompressedInto(init), s.covers, s.id);
    if x in s.covers {
      assert s in summaries;
    } else {
      IntoIsSummary(init, x);
      var t :| t in init && x in t.covers && CompressedInto(init)[x] == t.id;
      assert t in summaries;
    }
  }

  // ----- the summaries of a plan are sound -----

  ghost predicate DisjointClusters(clusters: seq<seq<Id>>) {
    forall i, j, x :: 0 <= i < j < |clusters| && x in clusters[i] ==> x !in clusters[j]
  }

  ghost predicate Injective(generate: nat -> Id) {
    forall k: nat, m: nat :: k < m ==> generate(k) != generate(m)
  }

  ghost predicate Generated(id: Id, generate: nat -> Id, n: nat) {
    exists k: nat :: k < n && id == generate(k)
  }

  /** No generated id is a member of a cluster. */
  ghost predicate NotMembers(generate: nat -> Id, clusters: seq<seq<Id>>) {
    forall id, c :: c in clusters && id in c ==> forall k: nat :: generate(k) != id
  }

  lemma {:induction false} SummariesOrigin(clusters: seq<seq<Id>>, gate: seq<Id> -> bool, generate: nat -> Id)
    ensures forall s :: s in SummariesFor(clusters, gate, generate) ==>
            s.covers in clusters && Generated(s.id, generate, |clusters|)
  {
    if clusters != [] {
      var n := |clusters| - 1;
      SummariesOrigin(clusters[..n], gate, generate);
      assert clusters == clusters[..n] + [clusters[n]];
      assert Generated(generate(n), generate, n + 1);
    }
  }

  lemma {:induction false} SummariesDisjoint(clusters: seq<seq<Id>>, gate: seq<Id> -> bool, generate: nat -> Id)
    requires DisjointClusters(clusters)
    ensures DisjointCovers(SummariesFor(clusters, gate, generate))
  {
    if clusters != [] {
      var n := |clusters| - 1;
      var init, last := clusters[..n], clusters[n];
      SummariesDisjoint(init, gate, generate);
      SummariesOrigin(init, gate, generate);
      var a, b := SummariesFor(init, gate, generate), SummariesFor(clusters, gate, generate);
      assert b == a || b == a + [Summary(generate(n), last)];
      forall i, x | 0 <= i < |a| && x in a[i].covers ensures x !in last {
        assert a[i] in a;
        var m :| 0 <= m < |init| && init[m] == a[i].covers;
        assert x in clusters[m];
      }
    }
  }

  lemma {:induction false} SummariesDistinct(clusters: seq<seq<Id>>, gate: seq<Id> -> bool, generate: nat -> Id)
    requires Injective(generate)
    ensures DistinctIds(SummariesFor(clusters, gate, generate))
  {
    if clusters != [] {
      var n := |clusters| - 1;
      SummariesDistinct(clusters[..n], gate, generate);
      SummariesOrigin(clusters[..n], gate, generate);
      var a, b := SummariesFor(clusters[..n], gate, generate), SummariesFor(clusters, gate, generate);
      assert b == a || b == a + [Summary(generate(n), clusters[n])];
      forall i | 0 <= i < |a| ensures a[i].id != generate(n) {
        assert a[i] in a;
        var k: nat :| k < n && a[i].id == generate(k);
      }
    }
  }

  lemma SummariesSound(clusters: seq<seq<Id>>, gate: seq<Id> -> bool, generate: nat -> Id)
    requires DisjointClusters(clusters) && Injective(generate) && NotMembers(generate, clusters)
    ensures SoundSummaries(SummariesFor(clusters, gate, generate))
  {
    var b := SummariesFor(clusters, gate, generate);
    SummariesDisjoint(clusters, gate, generate);
    SummariesDistinct(clusters, gate, generate);
    SummariesOrigin(clusters, gate, generate);
    forall s, t | s in b && t in b ensures s.id !in t.covers {
      var k: nat :| k < |clusters| && s.id == generate(k);
      assert t.covers in clusters;
    }
  }

  /** Planned clusters are disjoint and hold only ids of units. */
  lemma PlanDisjoint(units: seq<MemoryUnit>, sim: Similarity, params: PlanParams)
    requires UniqueIds(units)
    ensures DisjointClusters(Plan(units, sim, params))
    ensures forall c, id :: c in Plan(units, sim, params) && id in c ==> exists u :: u in units && u.id == id
  {
    var gs, cs, plan := PlannedGroups(units, sim, params), Candidates(units), Plan(units, sim, params);
    PlanStructure(units, sim, params);
    CandidatesAscending(units);
    forall i, x | 0 <= i < |plan| && x in plan[i] ensures exists u :: u in units && u.id == x {
      var c := MemberOf(gs, i, x);
      assert StandsFor(c, units, Covered(units));
    }
    forall i, j, x | 0 <= i < j < |plan| && x in plan[i] ensures x !in plan[j] {
      assert Apart(gs[i], gs[j], sim, params.similarity);
      var c := MemberOf(gs, i, x);
      if x in plan[j] {
        var d := MemberOf(gs, j, x);
        SameCandidate(cs, c, d);
      }
    }
  }

  lemma MemberOf(gs: seq<seq<Candidate>>, i: nat, x: Id) returns (c: Candidate)
    requires i < |gs| && x in Ids(gs[i])
    ensures c in gs[i] && c.id == x && gs[i] in gs
  {
    var a :| 0 <= a < |gs[i]| && Ids(gs[i])[a] == x;
    c := gs[i][a];
  }

  lemma SameCandidate(cs: seq<Candidate>, c: Candidate, d: Candidate)
    requires Ascending(cs) && c in cs && d in cs && c.id == d.id
    ensures c == d
  {
    var p :| 0 <= p < |cs| && cs[p] == c;
    var q :| 0 <= q < |cs| && cs[q] == d;
  }

  /** With fresh distinct ids the summaries made from a plan are sound. */
  lemma PlanIsSound(units: seq<MemoryUnit>, sim: Similarity, params: PlanParams, gate: seq<Id> -> bool,
                    generate: nat -> Id)
    requires UniqueIds(units) && Injective(generate)
    requires forall u :: u in units ==> forall k: nat :: generate(k) != u.id
    ensures SoundSummaries(SummariesFor(Plan(units, sim, params), gate, generate))
    ensures forall s :: s in SummariesFor(Plan(units, sim, params), gate, generate) ==>
              s.covers in Plan(units, sim, params) && Generated(s.id, generate, |Plan(units, sim, params)|)
  {
    PlanDisjoint(units, sim, params);
    SummariesSound(Plan(units, sim, params), gate, generate);
    SummariesOrigin(Plan(units, sim, params), gate, generate);
  }

  // ----- main results on redirection -----

  /** After the step no link of a unit targets a compressed source, and stored summaries have no links at all. */
  lemma NoLinkToCompressed(u: MemoryUnit, summaries: seq<Summary>)
    requires SoundSummaries(summaries)
    ensures forall l :: l in CompressUnit(u, summaries).links ==> l.target !in CompressedInto(summaries)
    ensures forall s :: s in summaries ==> SummaryLinks(s, CompressedInto(summaries)) == []
  {
    var into := CompressedInto(summaries);
    IntoKeys(summaries);
    MarkKeepsRest(u, summaries);
    var r := RedirectLinks(u.links, into);
    forall i | 0 <= i < |r| ensures r[i].target !in into {
      if u.links[i].target in into {
        IntoIsSummary(summaries, u.links[i].target);
        var s :| s in summaries && u.links[i].target in s.covers && into[u.links[i].target] == s.id;
      }
    }
    forall s | s in summaries ensures SummaryLinks(s, into) == [] {
      forall l | l in Elaborations(s.covers) ensures l.target in into {
        assert l.target in s.covers;
      }
      FilterNone(Elaborations(s.covers), NotCompressed(into));
    }
  }

  /** The note says that the link was redirected, after what it said before. */
  ghost predicate NotesRedirection(l: Link, r: Link) {
    && r.note.Some?
    && r.note.value == if l.note.Some? then l.note.value + " [redirected to summary]" else "redirected to summary"
  }

  /** Redirection keeps every edge and changes nothing but target and note. */
  lemma RedirectionConserves(u: MemoryUnit, summaries: seq<Summary>)
    ensures var v := CompressUnit(u, summaries);
            && v == u.(lifecycle := v.lifecycle, links := v.links) && |v.links| == |u.links|
            && forall i :: 0 <= i < |u.links| ==>
                 v.links[i] == u.links[i].(target := v.links[i].target, note := v.links[i].note)
                 && (u.links[i].target !in CompressedInto(summaries) ==> v.links[i] == u.links[i])
                 && (u.links[i].target in CompressedInto(summaries) ==> NotesRedirection(u.links[i], v.links[i]))
  {
    MarkKeepsRest(u, summaries);
  }

  /** Two edges of one type run into the same cluster. */
  predicate Collide(a: Link, b: Link, into: map<Id, Id>) {
    a.kind == b.kind && a.target in into && b.target in into && into[a.target] == into[b.target]
  }

  /**
   Deduplication by (target, type) survives redirection exactly when no two same-type edges of the unit
   run into one cluster; the generated ids must be new to the unit's links.
   */
  lemma UniquenessSurvivesExactly(links: seq<Link>, summaries: seq<Summary>)
    requires UniqueLinks(links)
    requires forall l, s :: l in links && s in summaries ==> l.target != s.id
    ensures var into := CompressedInto(summaries);
            UniqueLinks(RedirectLinks(links, into)) <==>
            forall i, j :: 0 <= i < j < |links| ==> !Collide(links[i], links[j], into)
  {
    var into := CompressedInto(summaries);
    var r := RedirectLinks(links, into);
    forall i, j | 0 <= i < j < |links| ensures SameEdge(r[i], r[j]) <==> Collide(links[i], links[j], into) {
      assert links[i] in links && links[j] in links;
      if links[i].target in into {
        IntoIsSummary(summaries, links[i].target);
      }
      if links[j].target in into {
        IntoIsSummary(summaries, links[j].target);
      }
    }
  }

  lemma RedirectionNoSelfLoop(u: MemoryUnit, summaries: seq<Summary>)
    requires NoSelfLoop(u.id, u.links) && forall s :: s in summaries ==> s.id != u.id
    ensures NoSelfLoop(u.id, CompressUnit(u, summaries).links)
  {
    var into := CompressedInto(summaries);
    MarkKeepsRest(u, summaries);
    forall i | 0 <= i < |u.links| ensures RedirectLink(u.links[i], into).target != u.id {
      assert u.links[i] in u.links;
      if u.links[i].target in into {
        IntoIsSummary(summaries, u.links[i].target);
      }
    }
  }

  // ----- a second pass -----

  /** `v` is `u` after the step as far as the planner can tell; links may have changed. */
  ghost predicate Carries(v: MemoryUnit, u: MemoryUnit, summaries: seq<Summary>) {
    && v.id == u.id && v.tokens == u.tokens && v.importance == u.importance
    && v.preceding == u.preceding && v.byConsolidation == u.byConsolidation
    && v.lifecycle == MarkUnit(u, summaries).lifecycle
  }

  ghost predicate Stores(v: MemoryUnit, s: Summary) {
    v.id == s.id && v.byConsolidation && v.preceding == s.covers && v.lifecycle == Active
  }

  /** `v` is a unit of `before` or a stored summary. */
  ghost predicate HasOrigin(v: MemoryUnit, before: seq<MemoryUnit>, summaries: seq<Summary>) {
    (exists u :: u in before && Carries(v, u, summaries)) || (exists s :: s in summaries && Stores(v, s))
  }

  /** `after` holds the units of `before`, compressed where covered, and the stored summaries, in any order. */
  ghost predicate Follows(after: seq<MemoryUnit>, before: seq<MemoryUnit>, summaries: seq<Summary>) {
    && (forall v :: v in after ==> HasOrigin(v, before, summaries))
    && (forall u :: u in before ==> exists v :: v in after && Carries(v, u, summaries))
    && (forall s :: s in summaries ==> exists v :: v in after && Stores(v, s))
  }

  lemma CoveredAfter(after: seq<MemoryUnit>, before: seq<MemoryUnit>, summaries: seq<Summary>, x: Id)
    requires Follows(after, before, summaries)
    ensures x in Covered(after) <==> x in Covered(before) || Covers(summaries, x)
  {
    if x in Covered(after) {
      var v :| v in after && v.byConsolidation && x in v.preceding;
      assert HasOrigin(v, before, summaries);
      if u :| u in before && Carries(v, u, summaries) {
      } else {
        var s :| s in summaries && Stores(v, s);
      }
    }
    if x in Covered(before) {
      var u :| u in before && u.byConsolidation && x in u.preceding;
      var v :| v in after && Carries(v, u, summaries);
    }
    if Covers(summaries, x) {
      var s :| s in summaries && x in s.covers;
      var v :| v in after && Stores(v, s);
    }
  }

  ghost function Gone(summaries: seq<Summary>): Candidate -> bool {
    (c: Candidate) => Covers(summaries, c.id)
  }

  /** The candidates of the second pass are those of the first whose unit was not compressed. */
  lemma CandidatesAfter(after: seq<MemoryUnit>, before: seq<MemoryUnit>, summaries: seq<Summary>)
    requires UniqueIds(before) && UniqueIds(after) && Follows(after, before, summaries)
    ensures Candidates(after) == Filter(Candidates(before), Remains(Gone(summaries)))
  {
    CandidatesAscending(before);
    CandidatesAscending(after);
    var left := Remains(Gone(summaries));
    FilterAscending(Candidates(before), left);
    FilterMembers(Candidates(before), left);
    forall c ensures c in Candidates(after) <==> c in Filter(Candidates(before), left) {
      StandsForAfter(after, before, summaries, c);
    }
    AscendingUnique(Candidates(after), Filter(Candidates(before), left));
  }

  lemma StandsForAfter(after: seq<MemoryUnit>, before: seq<MemoryUnit>, summaries: seq<Summary>, c: Candidate)
    requires Follows(after, before, summaries)
    ensures StandsFor(c, after, Covered(after)) <==> StandsFor(c, before, Covered(before)) && !Covers(summaries, c.id)
  {
    CoveredAfter(after, before, summaries, c.id);
    if StandsFor(c, after, Covered(after)) {
      StoodBefore(after, before, summaries, c);
    }
    if StandsFor(c, before, Covered(before)) && !Covers(summaries, c.id) {
      var u :| u in before && Eligible(u, Covered(before)) && c == CandidateOf(u);
      var v :| v in after && Carries(v, u, summaries);
      EligibleAcross(v, u, summaries, Covered(before), Covered(after));
    }
  }

  lemma StoodBefore(after: seq<MemoryUnit>, before: seq<MemoryUnit>, summaries: seq<Summary>, c: Candidate)
    requires (forall v :: v in after ==> HasOrigin(v, before, summaries)) && StandsFor(c, after, Covered(after))
    requires c.id in Covered(after) <==> c.id in Covered(before) || Covers(summaries, c.id)
    ensures StandsFor(c, before, Covered(before)) && !Covers(summaries, c.id)
  {
    var v :| v in after && Eligible(v, Covered(after)) && c == CandidateOf(v);
    assert HasOrigin(v, before, summaries);
    var u :| u in before && Carries(v, u, summaries);
    EligibleAcross(v, u, summaries, Covered(before), Covered(after));
  }

  lemma EligibleAcross(v: MemoryUnit, u: MemoryUnit, summaries: seq<Summary>, was: set<Id>, now: set<Id>)
    requires Carries(v, u, summaries) && (u.id in now <==> u.id in was || Covers(summaries, u.id))
    ensures Eligible(v, now) <==> Eligible(u, was) && !Covers(summaries, u.id)
    ensures CandidateOf(v) == CandidateOf(u)
  {
    MarkKeepsRest(u, summaries);
  }

  ghost function ChosenBy(params: PlanParams, gate: seq<Id> -> bool): seq<Candidate> -> bool {
    (g: seq<Candidate>) => BigEnough(g, params) && gate(Ids(g))
  }

  ghost function Refused(gate: seq<Id> -> bool): seq<Candidate> -> bool {
    (g: seq<Candidate>) => !gate(Ids(g))
  }

  lemma {:induction false} SummariesCover(clusters: seq<seq<Id>>, gate: seq<Id> -> bool, generate: nat -> Id, x: Id)
    ensures Covers(SummariesFor(clusters, gate, generate), x) <==> exists c :: c in clusters && gate(c) && x in c
  {
    if clusters != [] {
      var k := |clusters| - 1;
      var init, last := clusters[..k], clusters[k];
      SummariesCover(init, gate, generate, x);
      var a, b := SummariesFor(init, gate, generate), SummariesFor(clusters, gate, generate);
      assert clusters == init + [last];
      assert Covers(b, x) <==> Covers(a, x) || (gate(last) && x in last) by {
        if gate(last) {
          assert b == a + [Summary(generate(k), last)];
          assert Summary(generate(k), last) in b;
        }
      }
    }
  }

  /** A candidate is compressed exactly when its group was chosen. */
  lemma GoneIsChosen(units: seq<MemoryUnit>, sim: Similarity, params: PlanParams, gate: seq<Id> -> bool,
                     generate: nat -> Id)
    requires UniqueIds(units)
    ensures var summaries := SummariesFor(Plan(units, sim, params), gate, generate);
            forall g, c :: g in Groups(Candidates(units), sim, params.similarity) && c in g ==>
              Gone(summaries)(c) == ChosenBy(params, gate)(g)
  {
    var cs, plan := Candidates(units), Plan(units, sim, params);
    var gs := Groups(cs, sim, params.similarity);
    var summaries := SummariesFor(plan, gate, generate);
    CandidatesAscending(units);
    GroupsStructure(cs, sim, params.similarity);
    FilterMembers(gs, Qualifying(params));
    forall g, c | g in gs && c in g ensures Gone(summaries)(c) == ChosenBy(params, gate)(g) {
      SummariesCover(plan, gate, generate, c.id);
      if ChosenBy(params, gate)(g) {
        PlannedIds(units, sim, params, g);
        var i :| 0 <= i < |g| && g[i] == c;
        assert Ids(g)[i] == c.id;
      }
      if Gone(summaries)(c) {
        var ids :| ids in plan && gate(ids) && c.id in ids;
        var k :| 0 <= k < |plan| && plan[k] == ids;
        var h := PlannedGroups(units, sim, params)[k];
        assert h in PlannedGroups(units, sim, params) && ids == Ids(h);
        var i :| 0 <= i < |h| && Ids(h)[i] == c.id;
        SameGroup(gs, cs, sim, params.similarity, g, h, c, h[i]);
      }
    }
  }

  lemma PlannedIds(units: seq<MemoryUnit>, sim: Similarity, params: PlanParams, g: seq<Candidate>)
    requires g in PlannedGroups(units, sim, params)
    ensures Ids(g) in Plan(units, sim, params)
  {
    var k :| 0 <= k < |PlannedGroups(units, sim, params)| && PlannedGroups(units, sim, params)[k] == g;
    assert Plan(units, sim, params)[k] == Ids(g);
  }

  lemma SameGroup(gs: seq<seq<Candidate>>, cs: seq<Candidate>, sim: Similarity, threshold: real,
                  g: seq<Candidate>, h: seq<Candidate>, c: Candidate, d: Candidate)
    requires Ascending(cs) && GroupsOf(gs, cs, sim, threshold)
    requires g in gs && h in gs && c in g && d in h && c.id == d.id
    ensures g == h
  {
    assert c in cs && d in cs;
    SameCandidate(cs, c, d);
    var k :| 0 <= k < |gs| && gs[k] == g;
    var m :| 0 <= m < |gs| && gs[m] == h;
    assert k < m ==> Apart(gs[k], gs[m], sim, threshold);
    assert m < k ==> Apart(gs[m], gs[k], sim, threshold);
  }

  lemma {:induction false} FilterPairs(s: seq<seq<Candidate>>, params: PlanParams, gate: seq<Id> -> bool)
    ensures Filter(Filter(s, Unchosen(ChosenBy(params, gate))), Qualifying(params)) ==
            Filter(Filter(s, Qualifying(params)), Refused(gate))
  {
    if s != [] {
      FilterPairs(s[1..], params, gate);
      var a, b := Filter(s[1..], Unchosen(ChosenBy(params, gate))), Filter(s[1..], Qualifying(params));
      assert ([s[0]] + a)[1..] == a && ([s[0]] + b)[1..] == b;
    }
  }

  /**
   Re-planning after a pass finds exactly the groups that the pass planned and refused, so it creates no summary:
   for any units, similarity, thresholds and gate, any order of the store, and any changes to links in between.
   */
  lemma SecondPassCreatesNothing(before: seq<MemoryUnit>, after: seq<MemoryUnit>, sim: Similarity, params: PlanParams,
                                 gate: seq<Id> -> bool, generate: nat -> Id, generateNext: nat -> Id)
    requires UniqueIds(before) && UniqueIds(after)
    requires Follows(after, before, SummariesFor(Plan(before, sim, params), gate, generate))
    ensures PlannedGroups(after, sim, params) == Filter(PlannedGroups(before, sim, params), Refused(gate))
    ensures SummariesFor(Plan(after, sim, params), gate, generateNext) == []
  {
    var summaries := SummariesFor(Plan(before, sim, params), gate, generate);
    var cs := Candidates(before);
    CandidatesAfter(after, before, summaries);
    GoneIsChosen(before, sim, params, gate, generate);
    Regroup(cs, sim, params.similarity, Gone(summaries), ChosenBy(params, gate));
    FilterPairs(Groups(cs, sim, params.similarity), params, gate);
    var left := PlannedGroups(after, sim, params);
    FilterMembers(PlannedGroups(before, sim, params), Refused(gate));
    forall ids | ids in Plan(after, sim, params) ensures !gate(ids) {
      var k :| 0 <= k < |left| && Plan(after, sim, params)[k] == ids;
      assert left[k] in left;
    }
    AllRefused(Plan(after, sim, params), gate, generateNext);
  }

  lemma {:induction false} AllRefused(clusters: seq<seq<Id>>, gate: seq<Id> -> bool, generate: nat -> Id)
    requires forall ids :: ids in clusters ==> !gate(ids)
    ensures SummariesFor(clusters, gate, generate) == []
  {
    if clusters != [] {
      AllRefused(clusters[..|clusters| - 1], gate, generate);
    }
  }
}
