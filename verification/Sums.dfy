/** Sums over sequences, and listings of finite maps in an arbitrary order. */
module Sums {
  import opened Sorting

  function Sum<T>(s: seq<T>, f: T -> real): real {
    if s == [] then 0.0 else f(s[0]) + Sum(s[1..], f)
  }

  lemma {:induction false} SumConcat<T>(a: seq<T>, b: seq<T>, f: T -> real)
    ensures Sum(a + b, f) == Sum(a, f) + Sum(b, f)
  {
    if a == [] {
      assert a + b == b;
    } else {
      SumConcat(a[1..], b, f);
      assert (a + b)[1..] == a[1..] + b;
    }
  }

  lemma {:induction false} SumWithout<T>(s: seq<T>, i: nat, f: T -> real)
    requires i < |s|
    ensures Sum(s, f) == f(s[i]) + Sum(s[..i] + s[i + 1..], f)
  {
    assert s == s[..i] + ([s[i]] + s[i + 1..]);
    assert ([s[i]] + s[i + 1..])[1..] == s[i + 1..];
    SumConcat(s[..i], [s[i]] + s[i + 1..], f);
    SumConcat(s[..i], s[i + 1..], f);
  }

  /** A sum does not depend on the order of its terms. */
  lemma {:induction false} SumPermutes<T>(a: seq<T>, b: seq<T>, f: T -> real)
    requires multiset(a) == multiset(b)
    ensures Sum(a, f) == Sum(b, f)
  {
    assert |multiset(a)| == |a| && |multiset(b)| == |b|;
    if a != [] {
      assert a[0] in multiset(b);
      var i :| 0 <= i < |b| && b[i] == a[0];
      assert b == b[..i] + [b[i]] + b[i + 1..];
      MultisetTail(a);
      assert multiset(b[..i] + b[i + 1..]) == multiset(b) - multiset{b[i]};
      SumPermutes(a[1..], b[..i] + b[i + 1..], f);
      SumWithout(b, i, f);
    }
  }

  // ----- listings of maps -----

  /** `items` lists every entry of `m` once, in some order. */
  ghost predicate IsListing<K, V>(items: seq<(K, V)>, m: map<K, V>) {
    && (forall i :: 0 <= i < |items| ==> items[i].0 in m && m[items[i].0] == items[i].1)
    && (forall k :: k in m ==> (k, m[k]) in items)
    && (forall i, j :: 0 <= i < j < |items| ==> items[i].0 != items[j].0)
  }

  /** Iterating a hash map: the order is not determined. */
  method Enumerate<K(==), V(==)>(m: map<K, V>) returns (items: seq<(K, V)>)
    ensures IsListing(items, m)
  {
    items := [];
    var left := m.Keys;
    while left != {}
      invariant left <= m.Keys
      invariant forall i :: 0 <= i < |items| ==> items[i].0 in m && items[i].0 !in left && m[items[i].0] == items[i].1
      invariant forall k :: k in m && k !in left ==> (k, m[k]) in items
      invariant forall i, j :: 0 <= i < j < |items| ==> items[i].0 != items[j].0
      decreases left
    {
      var k :| k in left;
      left := left - {k};
      items := items + [(k, m[k])];
    }
  }

  lemma {:induction false} DistinctCount<T>(s: seq<T>, x: T)
    requires Distinct(s)
    ensures multiset(s)[x] == if x in s then 1 else 0
  {
    if s != [] {
      DistinctCount(s[1..], x);
      assert s == [s[0]] + s[1..];
    }
  }

  lemma DistinctMultiset<T>(a: seq<T>, b: seq<T>)
    requires Distinct(a) && Distinct(b)
    requires forall x :: x in a <==> x in b
    ensures multiset(a) == multiset(b)
  {
    forall x ensures multiset(a)[x] == multiset(b)[x] {
      DistinctCount(a, x);
      DistinctCount(b, x);
    }
  }

  lemma ListingMultiset<K, V>(a: seq<(K, V)>, b: seq<(K, V)>, m: map<K, V>)
    requires IsListing(a, m) && IsListing(b, m)
    ensures multiset(a) == multiset(b)
  {
    forall x ensures x in a <==> x in b {
      ListingMember(a, m, x);
      ListingMember(b, m, x);
    }
    DistinctMultiset(a, b);
  }

  lemma ListingMember<K, V>(a: seq<(K, V)>, m: map<K, V>, x: (K, V))
    requires IsListing(a, m)
    ensures x in a <==> x.0 in m && m[x.0] == x.1
  {
    if x in a {
      var i :| 0 <= i < |a| && a[i] == x;
    }
  }

  lemma TwiceCounted<T>(s: seq<T>, i: nat, j: nat)
    requires i < j < |s| && s[i] == s[j]
    ensures multiset(s)[s[i]] >= 2
  {
    assert s == s[..i] + [s[i]] + s[i + 1..j] + [s[j]] + s[j + 1..];
  }

  lemma ListingPermutes<K, V>(a: seq<(K, V)>, b: seq<(K, V)>, m: map<K, V>)
    requires IsListing(a, m) && multiset(a) == multiset(b)
    ensures IsListing(b, m)
  {
    assert forall x :: x in a <==> x in multiset(a);
    assert forall x :: x in b <==> x in multiset(b);
    forall i | 0 <= i < |b| ensures b[i].0 in m && m[b[i].0] == b[i].1 {
      ListingMember(a, m, b[i]);
    }
    forall i, j | 0 <= i < j < |b| ensures b[i].0 != b[j].0 {
      if b[i].0 == b[j].0 {
        TwiceCounted(b, i, j);
        DistinctCount(a, b[i]);
      }
    }
  }

  /** Distinct elements need that much room. */
  lemma {:induction false} DistinctFits<T>(a: seq<T>, b: seq<T>)
    requires Distinct(a) && forall x :: x in a ==> x in b
    ensures |a| <= |b|
  {
    if a != [] {
      assert a[0] in a;
      var i :| 0 <= i < |b| && b[i] == a[0];
      var b' := b[..i] + b[i + 1..];
      forall x | x in a[1..] ensures x in b' {
        assert x in a;
        var j :| 0 <= j < |b| && b[j] == x;
        assert j != i;
        assert x == if j < i then b'[j] else b'[j - 1];
      }
      DistinctFits(a[1..], b');
    }
  }
}
