/**
 Deleting several memories in one call (`hippmem-engine/src/delete_api.rs`). The in-edge cascade filters a
 snapshot taken before the loop, so a later id can write back what an earlier one removed.
 */
module Deletion {
  import opened MemoryModel
  import opened Sorting
  import opened StoreTables

  /** Position `i` of the batch deletes something: the id is live and has not come up before. */
  ghost predicate Effective(kv: map<Id, MemoryUnit>, ids: seq<Id>, i: nat)
    requires i < |ids|
  {
    ids[i] in kv && ids[i] !in ids[..i]
  }

  /** The last id of the batch that is deleted and that `x` pointed at. */
  ghost function LastHit(kv: map<Id, MemoryUnit>, x: Id, ids: seq<Id>): Option<Id> {
    if ids == [] then None
    else
      var n := |ids| - 1;
      if Effective(kv, ids, n) && Points(kv, x, ids[n]) then Some(ids[n]) else LastHit(kv, x, ids[..n])
  }

  /** The snapshot links without those to the last batch id that `x` pointed at. */
  ghost function LinksAfter(kv: map<Id, MemoryUnit>, x: Id, ids: seq<Id>): seq<Link>
    requires x in kv
  {
    match LastHit(kv, x, ids)
    case None => kv[x].links
    case Some(h) => Remaining(kv[x].links, h)
  }

  /**
   Every surviving unit keeps its fields and ends with the snapshot links minus those to the last batch id it pointed
   at.
   */
  lemma {:induction false} SurvivorsAfterDelete(t: Tables, ids: seq<Id>)
    ensures var r := DeleteStep(t, ids);
            forall x :: (x in r.kv <==> x in t.kv && x !in ids)
                        && (x in r.kv ==> r.kv[x] == t.kv[x].(links := LinksAfter(t.kv, x, ids)))
  {
    if ids != [] {
      var n := |ids| - 1;
      SurvivorsAfterDelete(t, ids[..n]);
      assert ids == ids[..n] + [ids[n]];
      var p, r := DeleteStep(t, ids[..n]), DeleteStep(t, ids);
      assert ids[n] in p.kv <==> Effective(t.kv, ids, n);
      forall x
        ensures x in r.kv <==> x in t.kv && x !in ids
        ensures x in r.kv ==> r.kv[x] == t.kv[x].(links := LinksAfter(t.kv, x, ids))
      {
        assert x in p.kv <==> x in t.kv && x !in ids[..n];
      }
    }
  }

  /** The overlay row of `x` after the batch, if any. */
  ghost function RowAfter(kv: map<Id, MemoryUnit>, x: Id, ids: seq<Id>): Option<seq<Link>> {
    if ids == [] then (if x in kv then Some(kv[x].links) else None)
    else
      var n := |ids| - 1;
      if !Effective(kv, ids, n) then RowAfter(kv, x, ids[..n])
      else if x == ids[n] then None
      else if Points(kv, x, ids[n]) then Some(Remaining(kv[x].links, ids[n]))
      else RowAfter(kv, x, ids[..n])
  }

  lemma {:induction false} OverlayAfterDelete(t: Tables, ids: seq<Id>)
    requires OverlayAgrees(t)
    ensures var r := DeleteStep(t, ids);
            forall x :: (x in r.overlay <==> RowAfter(t.kv, x, ids).Some?)
                        && (x in r.overlay ==> r.overlay[x] == RowAfter(t.kv, x, ids).value)
  {
    if ids != [] {
      var n := |ids| - 1;
      OverlayAfterDelete(t, ids[..n]);
      SurvivorsAfterDelete(t, ids[..n]);
      var p, r := DeleteStep(t, ids[..n]), DeleteStep(t, ids);
      assert ids[n] in p.kv <==> Effective(t.kv, ids, n);
      forall x
        ensures x in r.overlay <==> RowAfter(t.kv, x, ids).Some?
        ensures x in r.overlay ==> r.overlay[x] == RowAfter(t.kv, x, ids).value
      {
        assert x in p.overlay <==> RowAfter(t.kv, x, ids[..n]).Some?;
        assert x in p.overlay.Keys + t.kv.Keys <==> x in p.overlay || x in t.kv;
      }
    } else {
      assert forall x :: x in t.overlay <==> x in t.overlay.Keys;
      assert forall x :: x in t.kv <==> x in t.kv.Keys;
    }
  }

  /** A deleted id whose row comes back: it pointed at an id deleted after it. */
  ghost predicate Revived(kv: map<Id, MemoryUnit>, x: Id, ids: seq<Id>) {
    exists i, j ::
      0 <= i < j < |ids| && ids[i] == x && Effective(kv, ids, i) && Effective(kv, ids, j) && Points(kv, x, ids[j])
  }

  lemma EffectivePrefix(kv: map<Id, MemoryUnit>, ids: seq<Id>, n: nat, i: nat)
    requires i < n <= |ids|
    ensures ids[..n][i] == ids[i] && (Effective(kv, ids[..n], i) <==> Effective(kv, ids, i))
  {
    assert ids[..n][..i] == ids[..i];
  }

  lemma RevivedStays(kv: map<Id, MemoryUnit>, x: Id, ids: seq<Id>)
    requires ids != [] && Revived(kv, x, ids[..|ids| - 1])
    ensures Revived(kv, x, ids)
  {
    var n := |ids| - 1;
    var init := ids[..n];
    var i, j :| 0 <= i < j < n && init[i] == x && Effective(kv, init, i) && Effective(kv, init, j) &&
      Points(kv, x, init[j]);
    EffectivePrefix(kv, ids, n, i);
    EffectivePrefix(kv, ids, n, j);
  }

  lemma RevivedByLast(kv: map<Id, MemoryUnit>, x: Id, ids: seq<Id>)
    requires ids != [] && x in kv && x in ids[..|ids| - 1]
    requires Effective(kv, ids, |ids| - 1) && Points(kv, x, ids[|ids| - 1])
    ensures Revived(kv, x, ids)
  {
    var n := |ids| - 1;
    var i := FirstAt(ids[..n], x);
    EffectivePrefix(kv, ids, n, i);
    assert Effective(kv, ids, i) && ids[i] == x;
  }

  lemma RevivedBefore(kv: map<Id, MemoryUnit>, x: Id, ids: seq<Id>)
    requires ids != [] && Revived(kv, x, ids)
    ensures var n := |ids| - 1;
            Revived(kv, x, ids[..n]) || (x in kv && x in ids[..n] && Effective(kv, ids, n) && Points(kv, x, ids[n]))
  {
    var n := |ids| - 1;
    var i, j :| 0 <= i < j < |ids| && ids[i] == x && Effective(kv, ids, i) && Effective(kv, ids, j) &&
      Points(kv, x, ids[j]);
    EffectivePrefix(kv, ids, n, i);
    assert ids[..n][i] in ids[..n];
    if j < n {
      EffectivePrefix(kv, ids, n, j);
    }
  }

  lemma RevivedStep(kv: map<Id, MemoryUnit>, x: Id, ids: seq<Id>)
    requires ids != []
    ensures var n := |ids| - 1;
            Revived(kv, x, ids) <==>
            Revived(kv, x, ids[..n]) || (x in kv && x in ids[..n] && Effective(kv, ids, n) && Points(kv, x, ids[n]))
  {
    var n := |ids| - 1;
    if Revived(kv, x, ids) {
      RevivedBefore(kv, x, ids);
    }
    if Revived(kv, x, ids[..n]) {
      RevivedStays(kv, x, ids);
    }
    if x in kv && x in ids[..n] && Effective(kv, ids, n) && Points(kv, x, ids[n]) {
      RevivedByLast(kv, x, ids);
    }
  }

  lemma {:induction false} FirstAt(ids: seq<Id>, x: Id) returns (i: nat)
    requires x in ids
    ensures i < |ids| && ids[i] == x && x !in ids[..i]
  {
    if ids[0] == x {
      i := 0;
    } else {
      var j := FirstAt(ids[1..], x);
      i := j + 1;
      assert ids[..i] == [ids[0]] + ids[1..][..j];
    }
  }

  /** A row is there for every survivor, with the survivor's links, and for exactly the revived ids besides. */
  lemma {:induction false} RowsClosedForm(kv: map<Id, MemoryUnit>, x: Id, ids: seq<Id>)
    ensures RowAfter(kv, x, ids).Some? <==> (x in kv && x !in ids) || Revived(kv, x, ids)
    ensures x in kv && x !in ids ==> RowAfter(kv, x, ids) == Some(LinksAfter(kv, x, ids))
  {
    if ids != [] {
      var n := |ids| - 1;
      RowsClosedForm(kv, x, ids[..n]);
      RevivedStep(kv, x, ids);
      assert ids == ids[..n] + [ids[n]];
    }
  }

  /** No id of the batch pointed at one that is deleted after it. */
  ghost predicate NoForwardLink(kv: map<Id, MemoryUnit>, ids: seq<Id>) {
    forall i, j :: 0 <= i < j < |ids| && Effective(kv, ids, i) && Effective(kv, ids, j) ==> !Points(kv, ids[i], ids[j])
  }

  lemma ForwardLinkRevives(kv: map<Id, MemoryUnit>, ids: seq<Id>)
    ensures NoForwardLink(kv, ids) <==> forall x :: !Revived(kv, x, ids)
  {
    if !NoForwardLink(kv, ids) {
      var i, j :| 0 <= i < j < |ids| && Effective(kv, ids, i) && Effective(kv, ids, j) && Points(kv, ids[i], ids[j]);
      assert Revived(kv, ids[i], ids);
    }
  }

  /** A batch delete keeps overlay and units in agreement exactly when no id of it pointed at one deleted after it. */
  lemma DeleteKeepsOverlayExactly(t: Tables, ids: seq<Id>)
    requires OverlayAgrees(t)
    ensures OverlayAgrees(DeleteStep(t, ids)) <==> NoForwardLink(t.kv, ids)
  {
    var r := DeleteStep(t, ids);
    SurvivorsAfterDelete(t, ids);
    OverlayAfterDelete(t, ids);
    ForwardLinkRevives(t.kv, ids);
    forall x
      ensures x in r.overlay.Keys <==> x in r.kv.Keys || Revived(t.kv, x, ids)
      ensures x in r.kv ==> r.overlay[x] == r.kv[x].links
      ensures Revived(t.kv, x, ids) ==> x !in r.kv.Keys
    {
      RowsClosedForm(t.kv, x, ids);
    }
  }

  /** Deleting one memory at a time is always in agreement. */
  lemma SingleDeleteKeepsOverlay(t: Tables, id: Id)
    requires OverlayAgrees(t)
    ensures OverlayAgrees(DeleteStep(t, [id]))
  {
    DeleteKeepsOverlayExactly(t, [id]);
  }

  // ----- dangling links -----

  lemma {:induction false} LastHitIs(kv: map<Id, MemoryUnit>, x: Id, ids: seq<Id>)
    ensures LastHit(kv, x, ids).Some? ==> var h := LastHit(kv, x, ids).value; h in ids && h in kv && Points(kv, x, h)
    ensures LastHit(kv, x, ids).None? ==> forall h :: h in ids && h in kv ==> !Points(kv, x, h)
  {
    if ids != [] {
      var n := |ids| - 1;
      LastHitIs(kv, x, ids[..n]);
      assert ids == ids[..n] + [ids[n]];
    }
  }

  /** No survivor keeps a link to a memory deleted by the batch. */
  ghost predicate NoDangling(t: Tables, r: Tables, ids: seq<Id>) {
    forall x, l :: x in r.kv && l in r.kv[x].links ==> !(l.target in t.kv && l.target in ids)
  }

  ghost predicate AtMostOneHit(kv: map<Id, MemoryUnit>, x: Id, ids: seq<Id>) {
    forall a, b :: a in ids && b in ids && a in kv && b in kv && Points(kv, x, a) && Points(kv, x, b) ==> a == b
  }

  /**
   The cascade leaves no dangling link exactly when every survivor pointed at no more than one memory of the batch.
   */
  lemma NoDanglingExactly(t: Tables, ids: seq<Id>)
    ensures NoDangling(t, DeleteStep(t, ids), ids) <==>
            forall x :: x in t.kv && x !in ids ==> AtMostOneHit(t.kv, x, ids)
  {
    var r := DeleteStep(t, ids);
    SurvivorsAfterDelete(t, ids);
    forall x | x in t.kv && x !in ids
      ensures (forall l :: l in r.kv[x].links ==> !(l.target in t.kv && l.target in ids)) <==>
              AtMostOneHit(t.kv, x, ids)
    {
      SurvivorDangling(t.kv, x, ids);
    }
  }

  lemma SurvivorDangling(kv: map<Id, MemoryUnit>, x: Id, ids: seq<Id>)
    requires x in kv && x !in ids
    ensures (forall l :: l in LinksAfter(kv, x, ids) ==> !(l.target in kv && l.target in ids)) <==>
            AtMostOneHit(kv, x, ids)
  {
    LastHitIs(kv, x, ids);
    var links := LinksAfter(kv, x, ids);
    match LastHit(kv, x, ids) {
      case None =>
        forall l | l in links ensures !(l.target in kv && l.target in ids) {
          assert l.target in kv && l.target in ids ==> !Points(kv, x, l.target);
        }
      case Some(h) =>
        FilterMembers(kv[x].links, NotTo(h));
        if forall l :: l in links ==> !(l.target in kv && l.target in ids) {
          forall a | a in ids && a in kv && Points(kv, x, a) ensures a == h {
            var l :| l in kv[x].links && l.target == a;
            assert a != h ==> l in links;
          }
        }
        if AtMostOneHit(kv, x, ids) {
          forall l | l in links ensures !(l.target in kv && l.target in ids) {
            assert l in kv[x].links && l.target != h;
            assert l.target in kv && l.target in ids ==> Points(kv, x, l.target);
          }
        }
    }
  }
}
