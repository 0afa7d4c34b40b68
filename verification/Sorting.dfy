/**
 Stable sorting and filtering of sequences, as Rust's `sort_by`, `sort_by_key`
 and `retain` do it. Every ordering decision of the engine goes through here.
 */
module Sorting {

  /** `before` is a strict weak order: ties are allowed and tie-ness is transitive. */
  ghost predicate StrictWeak<T(!new)>(before: (T, T) -> bool) {
    && (forall x, y :: before(x, y) ==> !before(y, x))
    && (forall x, y, z {:trigger before(x, y), before(y, z)} {:trigger before(x, z), before(y, z)}
                       {:trigger before(x, y), before(x, z)} ::
          before(x, z) ==> before(x, y) || before(y, z))
  }

  /** No two different elements of `s` tie. */
  ghost predicate TieFree<T>(s: seq<T>, before: (T, T) -> bool) {
    forall x, y :: x in s && y in s ==> x == y || before(x, y) || before(y, x)
  }

  ghost predicate Ordered<T>(s: seq<T>, before: (T, T) -> bool) {
    forall i, j :: 0 <= i < j < |s| ==> !before(s[j], s[i])
  }

  predicate Distinct<T(==)>(s: seq<T>) {
    forall i, j :: 0 <= i < j < |s| ==> s[i] != s[j]
  }

  /** Inserts in front of the first element that `x` need not follow. */
  function Insert<T>(x: T, s: seq<T>, before: (T, T) -> bool): seq<T> {
    if s == [] || !before(s[0], x) then [x] + s
    else [s[0]] + Insert(x, s[1..], before)
  }

  /** The stable sort: equal keys keep their input order. */
  function Sort<T>(s: seq<T>, before: (T, T) -> bool): seq<T> {
    if s == [] then [] else Insert(s[0], Sort(s[1..], before), before)
  }

  function Filter<T>(s: seq<T>, keep: T -> bool): seq<T> {
    if s == [] then []
    else if keep(s[0]) then [s[0]] + Filter(s[1..], keep)
    else Filter(s[1..], keep)
  }

  // ----- sorting permutes and orders -----

  lemma {:induction false} InsertPermutes<T>(x: T, s: seq<T>, before: (T, T) -> bool)
    ensures multiset(Insert(x, s, before)) == multiset{x} + multiset(s)
  {
    if s == [] || !before(s[0], x) {
    } else {
      InsertPermutes(x, s[1..], before);
      assert s == [s[0]] + s[1..];
    }
  }

  lemma {:induction false} SortPermutes<T>(s: seq<T>, before: (T, T) -> bool)
    ensures multiset(Sort(s, before)) == multiset(s)
    ensures |Sort(s, before)| == |s|
    ensures forall x :: x in Sort(s, before) <==> x in s
  {
    if s != [] {
      SortPermutes(s[1..], before);
      InsertPermutes(s[0], Sort(s[1..], before), before);
      assert s == [s[0]] + s[1..];
    }
    var r := Sort(s, before);
    assert multiset(r) == multiset(s);
    assert |multiset(r)| == |r| && |multiset(s)| == |s|;
    forall x ensures x in r <==> x in s {
      assert x in multiset(r) <==> x in r;
      assert x in multiset(s) <==> x in s;
    }
  }

  lemma FirstBounds<T(!new)>(x: T, s: seq<T>, before: (T, T) -> bool)
    requires StrictWeak(before) && Ordered(s, before)
    requires s != [] && !before(s[0], x)
    ensures forall y :: y in s ==> !before(y, x)
  {
    forall y | y in s ensures !before(y, x) {
      var j :| 0 <= j < |s| && s[j] == y;
      assert j > 0 ==> !before(s[j], s[0]);
    }
  }

  lemma {:induction false} InsertOrdered<T(!new)>(x: T, s: seq<T>, before: (T, T) -> bool)
    requires StrictWeak(before) && Ordered(s, before)
    ensures Ordered(Insert(x, s, before), before)
  {
    if s == [] {
    } else if !before(s[0], x) {
      FirstBounds(x, s, before);
    } else {
      InsertOrdered(x, s[1..], before);
      var t := Insert(x, s[1..], before);
      InsertPermutes(x, s[1..], before);
      forall j | 0 <= j < |t| ensures !before(t[j], s[0]) {
        assert t[j] in multiset(t);
        assert t[j] == x || t[j] in s[1..];
      }
    }
  }

  lemma {:induction false} SortOrdered<T(!new)>(s: seq<T>, before: (T, T) -> bool)
    requires StrictWeak(before)
    ensures Ordered(Sort(s, before), before)
  {
    if s != [] {
      SortOrdered(s[1..], before);
      InsertOrdered(s[0], Sort(s[1..], before), before);
    }
  }

  // ----- an ordering without ties has one sorted arrangement -----

  lemma SameLength<T>(a: seq<T>, b: seq<T>)
    requires multiset(a) == multiset(b)
    ensures |a| == |b|
  {
    assert |multiset(a)| == |a| && |multiset(b)| == |b|;
  }

  lemma MultisetTail<T>(s: seq<T>)
    requires s != []
    ensures multiset(s[1..]) == multiset(s) - multiset{s[0]}
  {
    assert s == [s[0]] + s[1..];
  }

  lemma SameFirst<T>(a: seq<T>, b: seq<T>, before: (T, T) -> bool)
    requires Ordered(a, before) && Ordered(b, before) && a != [] && b != []
    requires multiset(a) == multiset(b) && TieFree(a, before)
    ensures a[0] == b[0]
  {
    assert a[0] in multiset(b) && b[0] in multiset(a);
    var i :| 0 <= i < |b| && b[i] == a[0];
    var j :| 0 <= j < |a| && a[j] == b[0];
    assert i > 0 ==> !before(b[i], b[0]);
    assert j > 0 ==> !before(a[j], a[0]);
  }

  lemma {:induction false} OrderedUnique<T>(a: seq<T>, b: seq<T>, before: (T, T) -> bool)
    requires Ordered(a, before) && Ordered(b, before)
    requires multiset(a) == multiset(b)
    requires TieFree(a, before)
    ensures a == b
  {
    SameLength(a, b);
    if a != [] {
      SameFirst(a, b, before);
      var a', b' := a[1..], b[1..];
      assert multiset(a') == multiset(b') by {
        MultisetTail(a);
        MultisetTail(b);
      }
      OrderedUnique(a', b', before);
      assert a == [a[0]] + a' && b == [b[0]] + b';
    }
  }

  /** Sorting erases the input order when there are no ties. */
  lemma {:induction false} SortErasesOrder<T(!new)>(a: seq<T>, b: seq<T>, before: (T, T) -> bool)
    requires StrictWeak(before) && multiset(a) == multiset(b) && TieFree(a, before)
    ensures Sort(a, before) == Sort(b, before)
  {
    SortPermutes(a, before);
    SortPermutes(b, before);
    SortOrdered(a, before);
    SortOrdered(b, before);
    OrderedUnique(Sort(a, before), Sort(b, before), before);
  }

  // ----- filtering -----

  lemma {:induction false} FilterMembers<T>(s: seq<T>, keep: T -> bool)
    ensures forall x :: x in Filter(s, keep) <==> x in s && keep(x)
    ensures |Filter(s, keep)| <= |s|
  {
    if s != [] {
      FilterMembers(s[1..], keep);
      assert s == [s[0]] + s[1..];
    }
  }

  lemma {:induction false} FilterConcat<T>(a: seq<T>, b: seq<T>, keep: T -> bool)
    ensures Filter(a + b, keep) == Filter(a, keep) + Filter(b, keep)
  {
    if a == [] {
      assert a + b == b;
    } else {
      FilterConcat(a[1..], b, keep);
      assert (a + b)[1..] == a[1..] + b;
    }
  }

  lemma FilterLast<T>(s: seq<T>, keep: T -> bool)
    requires s != []
    ensures Filter(s, keep) == Filter(s[..|s| - 1], keep) + (if keep(s[|s| - 1]) then [s[|s| - 1]] else [])
  {
    var n := |s| - 1;
    assert s == s[..n] + [s[n]];
    assert [s[n]][1..] == [];
    FilterConcat(s[..n], [s[n]], keep);
  }

  /** The places of the elements that qualify. */
  ghost function Places<T>(s: seq<T>, keep: T -> bool): set<nat> {
    set i: nat | i < |s| && keep(s[i])
  }

  lemma PlacesPush<T>(s: seq<T>, x: T, keep: T -> bool)
    ensures |Places(s + [x], keep)| == |Places(s, keep)| + if keep(x) then 1 else 0
  {
    var n, before := |s|, Places(s, keep);
    assert Places(s + [x], keep) == if keep(x) then before + {n} else before;
  }

  lemma {:induction false} FilterSize<T>(s: seq<T>, keep: T -> bool)
    ensures |Filter(s, keep)| == |Places(s, keep)|
  {
    if s != [] {
      var n := |s| - 1;
      FilterSize(s[..n], keep);
      FilterLast(s, keep);
      PlacesPush(s[..n], s[n], keep);
      assert s == s[..n] + [s[n]];
    }
  }

  lemma {:induction false} FilterAll<T>(s: seq<T>, keep: T -> bool)
    requires forall x :: x in s ==> keep(x)
    ensures Filter(s, keep) == s
  {
    if s != [] {
      FilterAll(s[1..], keep);
    }
  }

  lemma {:induction false} FilterNone<T>(s: seq<T>, keep: T -> bool)
    requires forall x :: x in s ==> !keep(x)
    ensures Filter(s, keep) == []
  {
    if s != [] {
      FilterNone(s[1..], keep);
    }
  }

  lemma {:induction false} FilterDistinct<T>(s: seq<T>, keep: T -> bool)
    requires Distinct(s)
    ensures Distinct(Filter(s, keep))
  {
    if s != [] {
      FilterDistinct(s[1..], keep);
      FilterMembers(s[1..], keep);
    }
  }

  lemma {:induction false} FilterInsert<T(!new)>(x: T, s: seq<T>, before: (T, T) -> bool, keep: T -> bool)
    requires StrictWeak(before) && Ordered(s, before)
    ensures Filter(Insert(x, s, before), keep) ==
            if keep(x) then Insert(x, Filter(s, keep), before) else Filter(s, keep)
  {
    if s == [] {
      assert [x] + s == [x];
      assert [x][1..] == [];
    } else if !before(s[0], x) {
      assert ([x] + s)[1..] == s;
      FirstBounds(x, s, before);
      FilterMembers(s, keep);
    } else {
      FilterInsert(x, s[1..], before, keep);
      var t := [s[0]] + Insert(x, s[1..], before);
      assert t[1..] == Insert(x, s[1..], before);
      var f := Filter(s[1..], keep);
      if keep(s[0]) {
        assert ([s[0]] + f)[1..] == f;
      }
    }
  }

  /** A stable sort commutes with filtering; with `keep` a key class this is stability. */
  lemma {:induction false} FilterSort<T(!new)>(s: seq<T>, before: (T, T) -> bool, keep: T -> bool)
    requires StrictWeak(before)
    ensures Filter(Sort(s, before), keep) == Sort(Filter(s, keep), before)
  {
    if s != [] {
      FilterSort(s[1..], before, keep);
      SortOrdered(s[1..], before);
      FilterInsert(s[0], Sort(s[1..], before), before, keep);
      var f := Filter(s[1..], keep);
      if keep(s[0]) {
        assert ([s[0]] + f)[1..] == f;
      }
    }
  }

  // ----- where an element lands -----

  /** How many of the numbers below `n` satisfy `p`. */
  ghost function CountTo(n: nat, p: nat -> bool): nat {
    if n == 0 then 0 else CountTo(n - 1, p) + (if p(n - 1) then 1 else 0)
  }

  lemma {:induction false} CountIsSize(n: nat, p: nat -> bool)
    ensures CountTo(n, p) == |set i: nat | i < n && p(i)|
  {
    if n > 0 {
      CountIsSize(n - 1, p);
      var before := set i: nat | i < n - 1 && p(i);
      assert (set i: nat | i < n && p(i)) == if p(n - 1) then before + {n - 1} else before;
    }
  }

  lemma {:induction false} CountCongruent(n: nat, p: nat -> bool, q: nat -> bool)
    requires forall j: nat :: j < n ==> p(j) == q(j)
    ensures CountTo(n, p) == CountTo(n, q)
  {
    if n > 0 {
      CountCongruent(n - 1, p, q);
    }
  }

  lemma {:induction false} CountMonotone(n: nat, p: nat -> bool, q: nat -> bool)
    requires forall j: nat :: j < n ==> p(j) ==> q(j)
    ensures CountTo(n, p) <= CountTo(n, q) <= n
    ensures (exists j: nat :: j < n && q(j) && !p(j)) ==> CountTo(n, p) < CountTo(n, q)
    ensures (exists j: nat :: j < n && !q(j)) ==> CountTo(n, q) < n
  {
    if n > 0 {
      CountMonotone(n - 1, p, q);
    }
  }

  lemma {:induction false} CountShift(n: nat, p: nat -> bool, q: nat -> bool)
    requires forall j: nat :: j < n ==> q(j) == p(j + 1)
    ensures CountTo(n + 1, p) == (if p(0) then 1 else 0) + CountTo(n, q)
  {
    if n > 0 {
      CountShift(n - 1, p, q);
    }
  }

  /** Index `j` of `s` goes ahead of index `i` in a stable sort. */
  predicate IsAhead<T>(s: seq<T>, j: nat, i: nat, before: (T, T) -> bool)
    requires i < |s|
  {
    j < |s| && (before(s[j], s[i]) || (j < i && !before(s[i], s[j])))
  }

  ghost function AheadOf<T>(s: seq<T>, i: nat, before: (T, T) -> bool): nat -> bool
    requires i < |s|
  {
    (j: nat) => IsAhead(s, j, i, before)
  }

  /** The stable rank of index `i`: how many indices go ahead of it. */
  ghost function Rank<T>(s: seq<T>, i: nat, before: (T, T) -> bool): nat
    requires i < |s|
  {
    CountTo(|s|, AheadOf(s, i, before))
  }

  /** The position at which Insert puts `x`. */
  ghost function Slot<T>(x: T, s: seq<T>, before: (T, T) -> bool): (p: nat)
    ensures p <= |s|
    ensures forall j :: 0 <= j < p ==> before(s[j], x)
    ensures p < |s| ==> !before(s[p], x)
  {
    if s == [] || !before(s[0], x) then 0 else 1 + Slot(x, s[1..], before)
  }

  lemma {:induction false} InsertAtSlot<T>(x: T, s: seq<T>, before: (T, T) -> bool)
    ensures var p := Slot(x, s, before);
            Insert(x, s, before) == s[..p] + [x] + s[p..]
  {
    if s == [] || !before(s[0], x) {
    } else {
      InsertAtSlot(x, s[1..], before);
      var p := Slot(x, s[1..], before);
      assert s[..p + 1] == [s[0]] + s[1..][..p];
      assert s[p + 1..] == s[1..][p..];
    }
  }

  lemma SlotSplits<T(!new)>(x: T, s: seq<T>, before: (T, T) -> bool, j: nat)
    requires StrictWeak(before) && Ordered(s, before) && j < |s|
    ensures before(s[j], x) <==> j < Slot(x, s, before)
  {
    var p := Slot(x, s, before);
    if p < j {
      assert !before(s[j], s[p]);
    }
  }

  ghost function BeforeIn<T>(x: T, s: seq<T>, before: (T, T) -> bool): nat -> bool {
    (j: nat) => j < |s| && before(s[j], x)
  }

  ghost function CountBefore<T>(x: T, s: seq<T>, before: (T, T) -> bool): nat {
    if s == [] then 0 else (if before(s[0], x) then 1 else 0) + CountBefore(x, s[1..], before)
  }

  lemma {:induction false} CountBeforeIs<T>(x: T, s: seq<T>, before: (T, T) -> bool)
    ensures CountTo(|s|, BeforeIn(x, s, before)) == CountBefore(x, s, before)
  {
    if s != [] {
      CountBeforeIs(x, s[1..], before);
      CountShift(|s| - 1, BeforeIn(x, s, before), BeforeIn(x, s[1..], before));
    }
  }

  lemma {:induction false} CountBeforeInsert<T>(x: T, y: T, s: seq<T>, before: (T, T) -> bool)
    ensures CountBefore(x, Insert(y, s, before), before) == CountBefore(x, s, before) + (if before(y, x) then 1 else 0)
  {
    if s == [] || !before(s[0], y) {
      assert ([y] + s)[1..] == s;
    } else {
      CountBeforeInsert(x, y, s[1..], before);
      assert ([s[0]] + Insert(y, s[1..], before))[1..] == Insert(y, s[1..], before);
    }
  }

  lemma {:induction false} CountBeforeSort<T>(x: T, s: seq<T>, before: (T, T) -> bool)
    ensures CountBefore(x, Sort(s, before), before) == CountBefore(x, s, before)
  {
    if s != [] {
      CountBeforeSort(x, s[1..], before);
      CountBeforeInsert(x, s[0], Sort(s[1..], before), before);
    }
  }

  lemma {:induction false} CountBeforeSlot<T(!new)>(x: T, s: seq<T>, before: (T, T) -> bool)
    requires StrictWeak(before) && Ordered(s, before)
    ensures CountBefore(x, s, before) == Slot(x, s, before)
  {
    if s != [] {
      if before(s[0], x) {
        CountBeforeSlot(x, s[1..], before);
      } else {
        FirstBounds(x, s, before);
        NoneBefore(x, s, before);
      }
    }
  }

  lemma {:induction false} NoneBefore<T>(x: T, s: seq<T>, before: (T, T) -> bool)
    requires forall y :: y in s ==> !before(y, x)
    ensures CountBefore(x, s, before) == 0
  {
    if s != [] {
      NoneBefore(x, s[1..], before);
    }
  }

  lemma RankOfFirst<T(!new)>(s: seq<T>, before: (T, T) -> bool)
    requires StrictWeak(before) && s != []
    ensures Rank(s, 0, before) == Slot(s[0], Sort(s[1..], before), before)
  {
    var x, t := s[0], s[1..];
    SortOrdered(t, before);
    CountBeforeSlot(x, Sort(t, before), before);
    CountBeforeSort(x, t, before);
    CountBeforeIs(x, t, before);
    CountShift(|t|, AheadOf(s, 0, before), BeforeIn(x, t, before));
  }

  lemma RankOfRest<T(!new)>(s: seq<T>, i: nat, before: (T, T) -> bool)
    requires StrictWeak(before) && 0 < i < |s|
    ensures Rank(s, i, before) == Rank(s[1..], i - 1, before) + (if before(s[i], s[0]) then 0 else 1)
  {
    CountShift(|s| - 1, AheadOf(s, i, before), AheadOf(s[1..], i - 1, before));
  }

  /** Index `i` of the input lands at its stable rank. */
  lemma {:induction false} SortPosition<T(!new)>(s: seq<T>, i: nat, before: (T, T) -> bool)
    requires StrictWeak(before) && i < |s|
    ensures Rank(s, i, before) < |Sort(s, before)| == |s|
    ensures Sort(s, before)[Rank(s, i, before)] == s[i]
    decreases |s|
  {
    var x, rest := s[0], s[1..];
    var sorted := Sort(rest, before);
    SortPermutes(rest, before);
    if i == 0 {
      InsertShifts(x, sorted, before);
      RankOfFirst(s, before);
    } else {
      SortPosition(rest, i - 1, before);
      SortOrdered(rest, before);
      InsertMoves(x, sorted, before, Rank(rest, i - 1, before));
      RankOfRest(s, i, before);
    }
  }

  lemma InsertShifts<T>(x: T, s: seq<T>, before: (T, T) -> bool)
    ensures |Insert(x, s, before)| == |s| + 1 && Insert(x, s, before)[Slot(x, s, before)] == x
  {
    InsertAtSlot(x, s, before);
  }

  /** An element keeps its place when `x` is inserted exactly when it must come before `x`; otherwise it moves up. */
  lemma InsertMoves<T(!new)>(x: T, s: seq<T>, before: (T, T) -> bool, j: nat)
    requires StrictWeak(before) && Ordered(s, before) && j < |s|
    ensures |Insert(x, s, before)| == |s| + 1
    ensures Insert(x, s, before)[j + if before(s[j], x) then 0 else 1] == s[j]
  {
    var p := Slot(x, s, before);
    InsertAtSlot(x, s, before);
    SlotSplits(x, s, before, j);
    InsertedAt(x, s, p, j);
  }

  lemma InsertedAt<T>(x: T, s: seq<T>, p: nat, j: nat)
    requires p <= |s| && j < |s|
    ensures (s[..p] + [x] + s[p..])[if j < p then j else j + 1] == s[j]
  {
  }

  /** Ranks follow the order ahead-of, so no two indices share one. */
  lemma RankOrder<T(!new)>(s: seq<T>, i: nat, j: nat, before: (T, T) -> bool)
    requires StrictWeak(before) && i < |s| && j < |s| && i != j
    ensures IsAhead(s, i, j, before) <==> Rank(s, i, before) < Rank(s, j, before)
    ensures Rank(s, i, before) != Rank(s, j, before)
  {
    if IsAhead(s, i, j, before) {
      AheadRank(s, i, j, before);
    } else {
      AheadRank(s, j, i, before);
    }
  }

  lemma AheadRank<T(!new)>(s: seq<T>, i: nat, j: nat, before: (T, T) -> bool)
    requires StrictWeak(before) && i < |s| && j < |s| && IsAhead(s, i, j, before) && i != j
    ensures Rank(s, i, before) < Rank(s, j, before)
  {
    var p, q := AheadOf(s, i, before), AheadOf(s, j, before);
    forall k: nat | k < |s| && p(k) ensures q(k) {
      assert IsAhead(s, k, i, before);
    }
    assert q(i) && !p(i);
    CountMonotone(|s|, p, q);
  }

  // ----- functions that work element by element -----

  ghost predicate PushesAt<A, B>(f: seq<A> -> seq<B>, one: A -> seq<B>, s: seq<A>, x: A) {
    f(s + [x]) == f(s) + one(x)
  }

  /** `f` turns every element, in order, into what `one` gives. */
  ghost predicate Pushes<A(!new), B>(f: seq<A> -> seq<B>, one: A -> seq<B>) {
    f([]) == [] && forall s: seq<A>, x: A :: PushesAt(f, one, s, x)
  }

  lemma {:induction false} PushesSplit<A(!new), B>(f: seq<A> -> seq<B>, one: A -> seq<B>, a: seq<A>, b: seq<A>)
    requires Pushes(f, one)
    ensures f(a + b) == f(a) + f(b)
  {
    if b == [] {
      assert a + b == a;
    } else {
      var init, x := b[..|b| - 1], b[|b| - 1];
      PushesSplit(f, one, a, init);
      assert a + b == (a + init) + [x] && b == init + [x];
      assert PushesAt(f, one, a + init, x) && PushesAt(f, one, init, x);
    }
  }

  // ----- what stands where in a sorted list -----

  /** `x` precedes `y`, or ties with it and stood earlier. */
  predicate Precedes<T>(x: T, y: T, earlier: bool, before: (T, T) -> bool) {
    before(x, y) || (!before(y, x) && earlier)
  }

  /** Two places of a sorted list come from elements of which the first precedes, or ties and stood earlier. */
  lemma {:induction false} SortedFrom<T(!new)>(s: seq<T>, a: nat, b: nat, before: (T, T) -> bool)
    returns (i: nat, j: nat)
    requires StrictWeak(before) && a < b < |s|
    ensures |Sort(s, before)| == |s| && i < |s| && j < |s| && Sort(s, before)[a] == s[i] && Sort(s, before)[b] == s[j]
    ensures Precedes(s[i], s[j], i < j, before)
    decreases |s|
  {
    var x, rest := s[0], s[1..];
    var t := Sort(rest, before);
    var p := Slot(x, t, before);
    SortPermutes(rest, before);
    if a == p || b == p {
      i, j := SortedWithFirst(s, a, b, before);
    } else {
      InsertedFrom(x, t, a, before);
      InsertedFrom(x, t, b, before);
      var k, l := SortedFrom(rest, if a < p then a else a - 1, if b < p then b else b - 1, before);
      assert s[k + 1] == rest[k] && s[l + 1] == rest[l];
      i, j := k + 1, l + 1;
    }
  }

  lemma SortedWithFirst<T(!new)>(s: seq<T>, a: nat, b: nat, before: (T, T) -> bool) returns (i: nat, j: nat)
    requires StrictWeak(before) && a < b < |s| && |Sort(s[1..], before)| == |s| - 1
    requires Slot(s[0], Sort(s[1..], before), before) == a || Slot(s[0], Sort(s[1..], before), before) == b
    ensures |Sort(s, before)| == |s| && i < |s| && j < |s| && Sort(s, before)[a] == s[i] && Sort(s, before)[b] == s[j]
    ensures Precedes(s[i], s[j], i < j, before)
  {
    var x, rest := s[0], s[1..];
    InsertShifts(x, Sort(rest, before), before);
    InsertedFrom(x, Sort(rest, before), a, before);
    InsertedFrom(x, Sort(rest, before), b, before);
    if a == Slot(x, Sort(rest, before), before) {
      var k := RestAfter(x, rest, b - 1, before);
      i, j := 0, k + 1;
    } else {
      var k := RestBefore(x, rest, a, before);
      i, j := k + 1, 0;
    }
  }

  lemma RestAfter<T(!new)>(x: T, rest: seq<T>, p: nat, before: (T, T) -> bool) returns (k: nat)
    requires StrictWeak(before) && p < |rest| && |Sort(rest, before)| == |rest|
    requires Slot(x, Sort(rest, before), before) <= p
    ensures k < |rest| && Sort(rest, before)[p] == rest[k] && !before(rest[k], x)
  {
    AfterSlot(x, rest, p, before);
    k := SortedAt(rest, p, before);
  }

  lemma RestBefore<T(!new)>(x: T, rest: seq<T>, p: nat, before: (T, T) -> bool) returns (k: nat)
    requires p < |rest| && |Sort(rest, before)| == |rest| && p < Slot(x, Sort(rest, before), before)
    ensures k < |rest| && Sort(rest, before)[p] == rest[k] && before(rest[k], x)
  {
    k := SortedAt(rest, p, before);
  }

  lemma AfterSlot<T(!new)>(x: T, s: seq<T>, j: nat, before: (T, T) -> bool)
    requires StrictWeak(before) && |Sort(s, before)| == |s| && Slot(x, Sort(s, before), before) <= j < |s|
    ensures !before(Sort(s, before)[j], x)
  {
    SortOrdered(s, before);
    SlotSplits(x, Sort(s, before), before, j);
  }

  lemma InsertedFrom<T>(x: T, s: seq<T>, a: nat, before: (T, T) -> bool)
    requires a <= |s|
    ensures var p := Slot(x, s, before);
            && |Insert(x, s, before)| == |s| + 1
            && (a < p ==> Insert(x, s, before)[a] == s[a])
            && (a > p ==> Insert(x, s, before)[a] == s[a - 1])
  {
    InsertAtSlot(x, s, before);
  }

  lemma PlaceOf<T>(s: seq<T>, y: T) returns (i: nat)
    requires y in s
    ensures i < |s| && s[i] == y
  {
    i :| i < |s| && s[i] == y;
  }

  lemma SortedAt<T>(s: seq<T>, a: nat, before: (T, T) -> bool) returns (i: nat)
    requires a < |s|
    ensures i < |s| && |Sort(s, before)| == |s| && Sort(s, before)[a] == s[i]
  {
    SortPermutes(s, before);
    var y := Sort(s, before)[a];
    assert y in multiset(Sort(s, before)) && y in multiset(s);
    i := PlaceOf(s, y);
  }
}
