/** Weak-edge archiving and the degree limit (`hippmem-consolidation/src/compaction.rs`). */
module Compaction {
  import opened MemoryModel
  import opened Sorting
  import opened Sums

  const DEGREE_LIMIT := 64

  predicate Stronger(a: Link, b: Link) {
    a.strength > b.strength
  }

  predicate Retain(l: Link) {
    Protected(l) || l.strength >= MIN_RETAINED
  }

  predicate Drop(l: Link) {
    !Retain(l)
  }

  function Kept(links: seq<Link>, limit: nat): seq<Link> {
    var kept := Filter(links, Retain);
    if |kept| > limit then
      SortPermutes(kept, Stronger);
      Sort(kept, Stronger)[..limit]
    else kept
  }

  function ArchivedLinks(links: seq<Link>, limit: nat): seq<Link> {
    var kept := Filter(links, Retain);
    Filter(links, Drop) +
    if |kept| > limit then
      SortPermutes(kept, Stronger);
      Sort(kept, Stronger)[limit..]
    else []
  }

  method CompactEdges(links: seq<Link>, limit: nat) returns (kept: seq<Link>, archived: seq<Link>)
    ensures kept == Kept(links, limit) && archived == ArchivedLinks(links, limit)
  {
    kept, archived := [], [];
    for i := 0 to |links|
      invariant kept == Filter(links[..i], Retain)
      invariant archived == Filter(links[..i], Drop)
    {
      var l := links[i];
      assert links[..i + 1] == links[..i] + [l];
      assert [l][1..] == [];
      FilterConcat(links[..i], [l], Retain);
      FilterConcat(links[..i], [l], Drop);
      if Protected(l) || l.strength >= MIN_RETAINED {
        kept := kept + [l];
      } else {
        archived := archived + [l];
      }
    }
    assert links[..|links|] == links;
    if |kept| > limit {
      SortPermutes(kept, Stronger);
      kept := Sort(kept, Stronger);
      archived := archived + kept[limit..];
      kept := kept[..limit];
    }
  }

  /** Below 0.12, and not a confirmed link of a protected type. */
  ghost predicate Weak(l: Link) {
    l.strength < 0.12 && !(l.observation == Confirmed && l.kind in {Causal, Correction, Contradiction, Supersedes})
  }

  /** Weak links go; another one goes only over the limit, and then no stronger than any link that stays. */
  lemma OverflowOnly(links: seq<Link>, limit: nat)
    ensures forall k :: k in Kept(links, limit) ==> !Weak(k)
    ensures forall a :: a in ArchivedLinks(links, limit) && !Weak(a) ==>
              |Kept(links, limit)| == limit && forall k :: k in Kept(links, limit) ==> k.strength >= a.strength
  {
    var kept := Filter(links, Retain);
    FilterMembers(links, Retain);
    FilterMembers(links, Drop);
    SortPermutes(kept, Stronger);
    assert forall l: Link :: Weak(l) <==> !Retain(l);
    if |kept| > limit {
      SortOrdered(kept, Stronger);
      CutAtLimit(Sort(kept, Stronger), limit);
    }
  }

  lemma CutAtLimit(s: seq<Link>, limit: nat)
    requires limit <= |s| && Ordered(s, Stronger)
    ensures forall a, k :: a in s[limit..] && k in s[..limit] ==> k.strength >= a.strength
  {
    forall a, k | a in s[limit..] && k in s[..limit] ensures k.strength >= a.strength {
      var j :| limit <= j < |s| && s[j] == a;
      var i :| 0 <= i < limit && s[i] == k;
    }
  }

  /** Every edge is either kept or archived, none is lost or doubled, and the limit holds. */
  lemma CompactionConserves(links: seq<Link>, limit: nat)
    ensures multiset(Kept(links, limit)) + multiset(ArchivedLinks(links, limit)) == multiset(links)
    ensures |Kept(links, limit)| <= limit
  {
    FilterSplits(links);
    var kept := Filter(links, Retain);
    if |kept| > limit {
      SortPermutes(kept, Stronger);
      var s := Sort(kept, Stronger);
      assert s == s[..limit] + s[limit..];
    }
  }

  lemma {:induction false} FilterSplits(links: seq<Link>)
    ensures multiset(Filter(links, Retain)) + multiset(Filter(links, Drop)) == multiset(links)
  {
    if links != [] {
      FilterSplits(links[1..]);
      assert links == [links[0]] + links[1..];
    }
  }

  /** What the limit archives is never stronger than what it keeps. */
  lemma KeptAreStrongest(links: seq<Link>, limit: nat, k: Link, a: Link)
    requires k in Kept(links, limit) && a in ArchivedLinks(links, limit)
    requires !Protected(k) || Retain(a)
    ensures a.strength <= k.strength
  {
    var kept := Filter(links, Retain);
    FilterMembers(links, Retain);
    FilterMembers(links, Drop);
    SortPermutes(kept, Stronger);
    SortOrdered(kept, Stronger);
    var s := Sort(kept, Stronger);
    if Retain(a) {
      assert |kept| > limit && a in s[limit..] && k in s[..limit];
      var i :| 0 <= i < limit && s[i] == k;
      var j :| limit <= j < |s| && s[j] == a;
    } else {
      assert k in s;
    }
  }

  /**
   The documentation says that protected edges are unaffected. Exactly: the protected edge at position `i`
   of the retained list stays if and only if fewer than `limit` retained edges are stronger or equally strong
   and earlier.
   */
  lemma ProtectedEdgeStays(links: seq<Link>, limit: nat, i: nat)
    requires UniqueLinks(links) && i < |Filter(links, Retain)|
    ensures var kept := Filter(links, Retain);
            kept[i] in Kept(links, limit) <==> |kept| <= limit || Rank(kept, i, Stronger) < limit
  {
    var kept := Filter(links, Retain);
    assert kept[i] in kept;
    if |kept| > limit {
      UniqueIsDistinct(links);
      FilterDistinct(links, Retain);
      SortPosition(kept, i, Stronger);
      SortPermutes(kept, Stronger);
      var s, r := Sort(kept, Stronger), Rank(kept, i, Stronger);
      if kept[i] in s[..limit] && r >= limit {
        var j :| 0 <= j < limit && s[j] == kept[i];
        TwiceCounted(s, j, r);
        DistinctCount(kept, kept[i]);
      }
    }
  }

  lemma UniqueIsDistinct(links: seq<Link>)
    requires UniqueLinks(links)
    ensures Distinct(links)
  {
  }

  lemma UniquePermutes(a: seq<Link>, b: seq<Link>)
    requires UniqueLinks(a) && multiset(a) == multiset(b)
    ensures UniqueLinks(b)
  {
    UniqueIsDistinct(a);
    assert forall x :: x in b ==> x in multiset(b);
    assert forall x :: x in multiset(a) ==> x in a;
    forall i, j | 0 <= i < j < |b| ensures !SameEdge(b[i], b[j]) {
      assert b[i] in a && b[j] in a;
      var x :| 0 <= x < |a| && a[x] == b[i];
      var y :| 0 <= y < |a| && a[y] == b[j];
      if x == y {
        TwiceCounted(b, i, j);
        DistinctCount(a, b[i]);
      }
    }
  }

  lemma {:induction false} FilterUnique(links: seq<Link>, keep: Link -> bool)
    requires UniqueLinks(links)
    ensures UniqueLinks(Filter(links, keep))
  {
    if links != [] {
      FilterUnique(links[1..], keep);
      FilterMembers(links[1..], keep);
      var f := Filter(links[1..], keep);
      forall j | 0 <= j < |f| ensures !SameEdge(links[0], f[j]) {
        assert f[j] in links[1..];
      }
    }
  }

  lemma KeptUnique(links: seq<Link>, limit: nat)
    requires UniqueLinks(links)
    ensures UniqueLinks(Kept(links, limit))
    ensures forall l :: l in Kept(links, limit) ==> l in links && Retain(l)
  {
    var kept := Filter(links, Retain);
    FilterUnique(links, Retain);
    FilterMembers(links, Retain);
    SortPermutes(kept, Stronger);
    UniquePermutes(kept, Sort(kept, Stronger));
  }

  lemma WeakestLast(s: seq<Link>, links: seq<Link>, p: Link)
    requires multiset(s) == multiset(links + [p]) && |s| == |links| + 1 && Ordered(s, Stronger) && p !in links
    requires (forall x :: x in s ==> x in links || x == p) && forall l :: l in links ==> l.strength > p.strength
    ensures s[|links|] == p
  {
    assert p in multiset(s);
    var i :| 0 <= i < |s| && s[i] == p;
    if i < |links| {
      var last := s[|links|];
      assert last in s && !Stronger(last, s[i]);
      TwiceCounted(s, i, |links|);
      OnceAtEnd(links, p);
    }
  }

  /** With sixty-four stronger edges a confirmed causal edge is archived: the comment's promise fails. */
  lemma ProtectedEdgeCanGo(links: seq<Link>, p: Link)
    requires |links| == DEGREE_LIMIT && p !in links
    requires Protected(p) && forall l :: l in links ==> l.strength >= MIN_RETAINED && l.strength > p.strength
    ensures p in ArchivedLinks(links + [p], DEGREE_LIMIT)
  {
    var all := links + [p];
    AllRetained(all);
    SortPermutes(all, Stronger);
    SortOrdered(all, Stronger);
    WeakestLast(Sort(all, Stronger), links, p);
    assert Sort(all, Stronger)[DEGREE_LIMIT..][0] == p;
  }

  lemma AllRetained(links: seq<Link>)
    requires |links| > DEGREE_LIMIT && forall l :: l in links ==> Retain(l)
    ensures |Sort(links, Stronger)| == |links| &&
            ArchivedLinks(links, DEGREE_LIMIT) == Sort(links, Stronger)[DEGREE_LIMIT..]
  {
    FilterAll(links, Retain);
    FilterNone(links, Drop);
    SortPermutes(links, Stronger);
  }

  lemma OnceAtEnd<T>(s: seq<T>, x: T)
    requires x !in s
    ensures multiset(s + [x])[x] == 1
  {
  }
}
