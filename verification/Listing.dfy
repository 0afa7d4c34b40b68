/** Cursor pagination, newest first (`list_api.rs`). */
module Listing {
  import opened MemoryModel
  import opened Sorting
  import opened Sums

  type ContentType = nat

  datatype ListItem = ListItem(id: Id, contentType: ContentType, importance: real, edgeCount: nat)

  datatype Page = Page(items: seq<ListItem>, next: Option<Id>, total: nat)

  /** A table holds one row per id. */
  ghost predicate OneRowPerId(rows: seq<ListItem>) {
    forall i, j :: 0 <= i < j < |rows| ==> rows[i].id != rows[j].id
  }

  ghost predicate Descending(s: seq<ListItem>) {
    forall i, j :: 0 <= i < j < |s| ==> s[i].id > s[j].id
  }

  predicate Newer(a: ListItem, b: ListItem) {
    a.id > b.id
  }

  function OfType(contentType: Option<ContentType>): ListItem -> bool {
    (x: ListItem) => contentType.None? || x.contentType == contentType.value
  }

  function Below(cursor: Option<Id>): ListItem -> bool {
    (x: ListItem) => cursor.None? || x.id < cursor.value
  }

  function PageLimit(limit: nat): nat {
    if limit < 1 then 1 else if limit > 100 then 100 else limit
  }

  /** All rows of the type, newest first. */
  function Selected(rows: seq<ListItem>, contentType: Option<ContentType>): seq<ListItem> {
    Sort(Filter(rows, OfType(contentType)), Newer)
  }

  /** The rows a cursor has still to come to, newest first. */
  ghost function Remaining(rows: seq<ListItem>, contentType: Option<ContentType>, cursor: Option<Id>): seq<ListItem> {
    Filter(Selected(rows, contentType), Below(cursor))
  }

  /**
   The page is the first `limit` remaining rows; there is a next cursor, the last of them, exactly when more remain.
   */
  ghost predicate IsPage(page: Page, rows: seq<ListItem>, contentType: Option<ContentType>, cursor: Option<Id>,
                         limit: nat) {
    var rest := Remaining(rows, contentType, cursor);
    var n := if |rest| <= PageLimit(limit) then |rest| else PageLimit(limit);
    && page.items == rest[..n]
    && page.next == (if n < |rest| then Some(rest[n - 1].id) else None)
    && page.total == |Filter(rows, OfType(contentType))|
  }

  lemma SelectedRows(rows: seq<ListItem>, contentType: Option<ContentType>)
    requires OneRowPerId(rows)
    ensures Descending(Selected(rows, contentType))
    ensures forall x :: x in Selected(rows, contentType) <==> x in rows && OfType(contentType)(x)
    ensures |Selected(rows, contentType)| == |Filter(rows, OfType(contentType))|
  {
    var kept := Filter(rows, OfType(contentType));
    FilterMembers(rows, OfType(contentType));
    SortPermutes(kept, Newer);
    SortOrdered(kept, Newer);
    FilterOneRow(rows, OfType(contentType));
    var s := Selected(rows, contentType);
    forall i, j | 0 <= i < j < |s| ensures s[i].id > s[j].id {
      assert !Newer(s[j], s[i]);
      if s[i].id == s[j].id {
        SameRow(kept, s[i], s[j]);
        TwiceCounted(s, i, j);
        DistinctCount(kept, s[i]);
      }
    }
  }

  lemma SameRow(rows: seq<ListItem>, x: ListItem, y: ListItem)
    requires OneRowPerId(rows) && x in rows && y in rows && x.id == y.id
    ensures x == y
  {
    var i :| 0 <= i < |rows| && rows[i] == x;
    var j :| 0 <= j < |rows| && rows[j] == y;
  }

  lemma {:induction false} FilterOneRow(rows: seq<ListItem>, keep: ListItem -> bool)
    requires OneRowPerId(rows)
    ensures OneRowPerId(Filter(rows, keep))
  {
    if rows != [] {
      FilterOneRow(rows[1..], keep);
      FilterMembers(rows[1..], keep);
      var rest := Filter(rows[1..], keep);
      forall j | 0 <= j < |rest| ensures rows[0].id != rest[j].id {
        assert rest[j] in rest;
      }
    }
  }

  // ----- one call -----

  /** Where the cursor splits a descending list: everything from `k` on is below it. */
  lemma SplitAtCursor(s: seq<ListItem>, cursor: Option<Id>, k: nat)
    requires k <= |s| && (forall i :: 0 <= i < k ==> !Below(cursor)(s[i])) &&
             (forall i :: k <= i < |s| ==> Below(cursor)(s[i]))
    ensures Filter(s, Below(cursor)) == s[k..]
  {
    SplitFilter(s[..k], s[k..], Below(cursor));
    assert s == s[..k] + s[k..];
  }

  lemma SplitFilter<T>(above: seq<T>, below: seq<T>, keep: T -> bool)
    requires (forall i :: 0 <= i < |above| ==> !keep(above[i])) && (forall i :: 0 <= i < |below| ==> keep(below[i]))
    ensures Filter(above + below, keep) == below
  {
    FilterConcat(above, below, keep);
    FilterNone(above, keep);
    FilterAll(below, keep);
  }

  /** The first row with the cursor's id, if there is one. */
  method Position(s: seq<ListItem>, cursor: Id) returns (p: Option<nat>)
    ensures p.Some? ==> p.value < |s| && s[p.value].id == cursor
    ensures p.None? ==> forall i :: 0 <= i < |s| ==> s[i].id != cursor
  {
    for i := 0 to |s|
      invariant forall j :: 0 <= j < i ==> s[j].id != cursor
    {
      if s[i].id == cursor {
        return Some(i);
      }
    }
    return None;
  }

  /** Binary search for the place of a cursor whose row is gone. */
  method InsertionPoint(s: seq<ListItem>, cursor: Id) returns (k: nat)
    requires Descending(s) && forall i :: 0 <= i < |s| ==> s[i].id != cursor
    ensures k <= |s| && (forall i :: 0 <= i < k ==> s[i].id > cursor) && (forall i :: k <= i < |s| ==> s[i].id < cursor)
  {
    var low, high := 0, |s|;
    while low < high
      invariant 0 <= low <= high <= |s|
      invariant forall i :: 0 <= i < low ==> s[i].id > cursor
      invariant forall i :: high <= i < |s| ==> s[i].id < cursor
    {
      var mid := (low + high) / 2;
      if cursor < s[mid].id {
        low := mid + 1;
      } else {
        high := mid;
      }
    }
    k := low;
  }

  method StartIndex(s: seq<ListItem>, cursor: Option<Id>) returns (k: nat)
    requires Descending(s)
    ensures k <= |s| && s[k..] == Filter(s, Below(cursor))
  {
    if cursor.None? {
      k := 0;
    } else {
      var p := Position(s, cursor.value);
      if p.Some? {
        k := p.value + 1;
      } else {
        k := InsertionPoint(s, cursor.value);
      }
    }
    SplitAtCursor(s, cursor, k);
  }

  /** Cuts a page of at most `size` rows out of the list, and takes its last id as cursor if more follow. */
  method CutPage(items: seq<ListItem>, start: nat, size: nat) returns (taken: seq<ListItem>, next: Option<Id>)
    requires start <= |items| && size > 0
    ensures var rest := items[start..];
            var n := if |rest| <= size then |rest| else size;
            taken == rest[..n] && next == if n < |rest| then Some(rest[n - 1].id) else None
  {
    var end := if start + size <= |items| then start + size else |items|;
    var more := end < |items|;
    taken := if start < |items| then items[start..end] else [];
    next := if more && taken != [] then Some(taken[|taken| - 1].id) else None;
  }

  method List(rows: seq<ListItem>, contentType: Option<ContentType>, cursor: Option<Id>, limit: nat)
    returns (page: Page)
    requires OneRowPerId(rows)
    ensures IsPage(page, rows, contentType, cursor, limit)
    ensures ShowsPage(page, rows, contentType, cursor, if limit == 0 then 1 else if limit > 100 then 100 else limit)
  {
    var items := Selected(rows, contentType);
    SelectedRows(rows, contentType);
    var start := StartIndex(items, cursor);
    var taken, next := CutPage(items, start, PageLimit(limit));
    page := Page(taken, next, |items|);
    PageShows(page, rows, contentType, cursor, limit);
  }

  /** A row of the type asked for, if any, and older than the cursor, if there is one. */
  ghost predicate Asked(x: ListItem, contentType: Option<ContentType>, cursor: Option<Id>) {
    (contentType == None || x.contentType == contentType.value) && (cursor == None || x.id < cursor.value)
  }

  /**
   The page shows the newest rows that are asked for, as many as fit; the next cursor is the last of them if some are
   left; and the total counts all rows of the type.
   */
  ghost predicate ShowsPage(page: Page, rows: seq<ListItem>, contentType: Option<ContentType>, cursor: Option<Id>,
                            size: nat) {
    && |page.items| <= size && Descending(page.items)
    && (forall x :: x in page.items ==> x in rows && Asked(x, contentType, cursor))
    && (forall x :: x in rows && Asked(x, contentType, cursor) && x !in page.items ==>
          |page.items| == size > 0 && x.id < page.items[size - 1].id
          && page.next == Some(page.items[size - 1].id))
    && ((forall x :: x in rows && Asked(x, contentType, cursor) ==> x in page.items) ==> page.next == None)
    && page.total == |set i: nat | i < |rows| && (contentType == None || rows[i].contentType == contentType.value)|
  }

  lemma PageShows(page: Page, rows: seq<ListItem>, contentType: Option<ContentType>, cursor: Option<Id>, limit: nat)
    requires OneRowPerId(rows) && IsPage(page, rows, contentType, cursor, limit)
    ensures ShowsPage(page, rows, contentType, cursor, if limit == 0 then 1 else if limit > 100 then 100 else limit)
  {
    PageContents(page, rows, contentType, cursor, limit);
    TotalCounts(rows, contentType);
    NextIfMore(page, rows, contentType, cursor, limit);
    forall x ensures Asked(x, contentType, cursor) <==> OfType(contentType)(x) && Below(cursor)(x) {
    }
  }

  lemma TotalCounts(rows: seq<ListItem>, contentType: Option<ContentType>)
    ensures |Filter(rows, OfType(contentType))| ==
            |set i: nat | i < |rows| && (contentType == None || rows[i].contentType == contentType.value)|
  {
    FilterSize(rows, OfType(contentType));
    assert Places(rows, OfType(contentType)) ==
           set i: nat | i < |rows| && (contentType == None || rows[i].contentType == contentType.value);
  }

  lemma NextIfMore(page: Page, rows: seq<ListItem>, contentType: Option<ContentType>, cursor: Option<Id>, limit: nat)
    requires OneRowPerId(rows) && IsPage(page, rows, contentType, cursor, limit)
    ensures page.next.Some? ==> exists x :: x in rows && Asked(x, contentType, cursor) && x !in page.items
  {
    if page.next.Some? {
      var rest := Remaining(rows, contentType, cursor);
      var x := rest[|page.items|];
      RemainingRows(rows, contentType, cursor);
      assert x in rest;
    }
  }

  // ----- runs over changing tables -----

  /**
   What the caller does: `page(i)` answers call `i`, made on the table `rows(i)` with the cursor of the call before.
   */
  datatype Run = Run(rows: nat -> seq<ListItem>, page: nat -> Page, contentType: Option<ContentType>, limit: nat)

  ghost function CursorOf(run: Run, i: nat): Option<Id> {
    if i == 0 then None else run.page(i - 1).next
  }

  /** The table at call `i` has one row per id and the answer is its page. */
  ghost predicate Answered(run: Run, i: nat) {
    OneRowPerId(run.rows(i)) && IsPage(run.page(i), run.rows(i), run.contentType, CursorOf(run, i), run.limit)
  }

  ghost predicate Continues(run: Run, i: nat) {
    run.page(i).next.Some?
  }

  /**
   Calls `0` to `n - 1` are made: each but the last got a next cursor, and the table may change arbitrarily in
   between.
   */
  ghost predicate Follows(run: Run, n: nat) {
    && (forall i: nat :: i < n ==> Answered(run, i))
    && (forall i: nat :: i < n - 1 ==> Continues(run, i))
  }

  /** The caller has come to the end. */
  ghost predicate Finished(run: Run, n: nat) {
    n > 0 && Follows(run, n) && run.page(n - 1).next.None?
  }

  ghost function Collected(run: Run, n: nat): seq<ListItem> {
    if n == 0 then [] else Collected(run, n - 1) + run.page(n - 1).items
  }

  lemma FollowsPrefix(run: Run, n: nat)
    requires n > 0 && Follows(run, n)
    ensures Follows(run, n - 1)
  {}

  /** What one page contains: descending, below the cursor, down to the next cursor, nothing of the type skipped. */
  lemma PageContents(page: Page, rows: seq<ListItem>, contentType: Option<ContentType>, cursor: Option<Id>, limit: nat)
    requires OneRowPerId(rows) && IsPage(page, rows, contentType, cursor, limit)
    ensures Descending(page.items)
    ensures forall x :: x in page.items <==>
              x in rows && OfType(contentType)(x) && Below(cursor)(x) && (page.next.Some? ==> x.id >= page.next.value)
    ensures page.next.Some? ==>
            |page.items| == PageLimit(limit) && page.items[|page.items| - 1].id == page.next.value &&
              Below(cursor)(page.items[|page.items| - 1])
    ensures |page.items| <= PageLimit(limit)
  {
    var rest, n := Remaining(rows, contentType, cursor), |page.items|;
    RemainingRows(rows, contentType, cursor);
    if n < |rest| {
      PrefixAbove(rest, n);
      assert rest[n - 1] in rest;
    } else {
      assert rest[..n] == rest;
    }
  }

  lemma RemainingRows(rows: seq<ListItem>, contentType: Option<ContentType>, cursor: Option<Id>)
    requires OneRowPerId(rows)
    ensures Descending(Remaining(rows, contentType, cursor))
    ensures forall x :: x in Remaining(rows, contentType, cursor) <==>
            x in rows && OfType(contentType)(x) && Below(cursor)(x)
  {
    SelectedRows(rows, contentType);
    FilterMembers(Selected(rows, contentType), Below(cursor));
    FilterDescending(Selected(rows, contentType), Below(cursor));
  }

  lemma PrefixAbove(s: seq<ListItem>, n: nat)
    requires Descending(s) && 0 < n < |s|
    ensures Descending(s[..n])
    ensures forall x :: x in s[..n] <==> x in s && x.id >= s[n - 1].id
  {
    forall x | x in s ensures x in s[..n] <==> x.id >= s[n - 1].id {
      var k :| 0 <= k < |s| && s[k] == x;
      if k < n {
        assert s[..n][k] == x;
      }
    }
  }

  lemma {:induction false} FilterDescending(s: seq<ListItem>, keep: ListItem -> bool)
    requires Descending(s)
    ensures Descending(Filter(s, keep))
  {
    if s != [] {
      FilterDescending(s[1..], keep);
      FilterMembers(s[1..], keep);
      var rest := Filter(s[1..], keep);
      forall j | 0 <= j < |rest| ensures s[0].id > rest[j].id {
        assert rest[j] in rest;
      }
    }
  }

  /** Everything collected so far lies at or above the cursor of the next call. */
  lemma {:induction false} CollectedAbove(run: Run, n: nat)
    requires Follows(run, n)
    ensures Descending(Collected(run, n))
    ensures n > 0 && run.page(n - 1).next.Some? ==>
              forall x :: x in Collected(run, n) ==> x.id >= run.page(n - 1).next.value
  {
    if n > 0 {
      FollowsPrefix(run, n);
      CollectedAbove(run, n - 1);
      CallFacts(run, n, n - 1);
      AppendDescending(Collected(run, n - 1), run.page(n - 1).items, run.page(n - 1).next);
    }
  }

  /** A call's page runs down from its cursor to the next. */
  lemma CallFacts(run: Run, n: nat, i: nat)
    requires i < n && Follows(run, n)
    ensures Descending(run.page(i).items)
    ensures forall x :: x in run.page(i).items ==>
            Below(CursorOf(run, i))(x) && (run.page(i).next.Some? ==> x.id >= run.page(i).next.value)
    ensures i > 0 ==> run.page(i - 1).next.Some?
    ensures i > 0 && run.page(i).next.Some? ==> run.page(i).next.value <= run.page(i - 1).next.value
  {
    assert Answered(run, i);
    PageContents(run.page(i), run.rows(i), run.contentType, CursorOf(run, i), run.limit);
    if i > 0 {
      var k := i - 1;
      assert Continues(run, k);
    }
  }

  lemma AppendDescending(a: seq<ListItem>, b: seq<ListItem>, next: Option<Id>)
    requires Descending(a) && Descending(b) && forall x, y :: x in a && y in b ==> x.id > y.id
    requires next.Some? ==> (forall x :: x in a ==> x.id >= next.value) && (forall y :: y in b ==> y.id >= next.value)
    ensures Descending(a + b)
    ensures next.Some? ==> forall x :: x in a + b ==> x.id >= next.value
  {
    forall i, j | 0 <= i < |a| && 0 <= j < |b| ensures a[i].id > b[j].id {
      assert a[i] in a && b[j] in b;
    }
  }

  ghost predicate HasId(s: seq<ListItem>, id: Id) {
    exists x :: x in s && x.id == id
  }

  /** The table has a row of the type with this id; its other columns do not matter. */
  ghost predicate HoldsId(rows: seq<ListItem>, contentType: Option<ContentType>, id: Id) {
    exists x :: x in rows && x.id == id && OfType(contentType)(x)
  }

  /** The memory is in the table at each of the first `n` calls; its row may change in between. */
  ghost predicate PresentThroughout(run: Run, n: nat, id: Id) {
    forall i: nat :: i < n ==> HoldsId(run.rows(i), run.contentType, id)
  }

  /** A run lists a memory present throughout as soon as the cursor has passed it, and by the end at the latest. */
  lemma {:induction false} NothingSkipped(run: Run, n: nat, id: Id)
    requires n > 0 && Follows(run, n) && PresentThroughout(run, n, id)
    requires run.page(n - 1).next.Some? ==> id >= run.page(n - 1).next.value
    ensures HasId(Collected(run, n), id)
  {
    var k := n - 1;
    assert Answered(run, k);
    PageContents(run.page(k), run.rows(k), run.contentType, CursorOf(run, k), run.limit);
    assert HoldsId(run.rows(k), run.contentType, id);
    var x :| x in run.rows(k) && x.id == id && OfType(run.contentType)(x);
    if Below(CursorOf(run, k))(x) {
      assert x in run.page(k).items;
    } else {
      assert Continues(run, k - 1);
      NothingSkipped(run, k, id);
      var y :| y in Collected(run, k) && y.id == id;
      assert y in Collected(run, n);
    }
  }

  /** The position of an id in a run's output. */
  ghost predicate ListedOnceAt(s: seq<ListItem>, id: Id, k: nat) {
    k < |s| && s[k].id == id && forall j :: 0 <= j < |s| && s[j].id == id ==> j == k
  }

  /**
   Following the cursor to the end lists strictly descending ids, and every memory that is in the table throughout
   exactly once, whatever is inserted, deleted or changed between the calls, the memory's own columns and the
   cursor's row included.
   */
  lemma RunListsOnce(run: Run, n: nat, id: Id) returns (k: nat)
    requires Finished(run, n) && PresentThroughout(run, n, id)
    ensures Descending(Collected(run, n))
    ensures ListedOnceAt(Collected(run, n), id, k)
  {
    NothingSkipped(run, n, id);
    CollectedAbove(run, n);
    var s := Collected(run, n);
    var x :| x in s && x.id == id;
    k :| 0 <= k < |s| && s[k] == x;
  }

  /** Call `i` listed the row, which was then in the table and of the type. */
  ghost predicate ListedAt(run: Run, i: nat, x: ListItem) {
    x in run.page(i).items && x in run.rows(i) && OfType(run.contentType)(x)
  }

  lemma PageRows(run: Run, n: nat, i: nat, x: ListItem)
    requires i < n && Follows(run, n) && x in run.page(i).items
    ensures ListedAt(run, i, x)
  {
    assert Answered(run, i);
    PageContents(run.page(i), run.rows(i), run.contentType, CursorOf(run, i), run.limit);
  }

  /** Nothing is listed that was not in the table when its page was made. */
  lemma {:induction false} NothingInvented(run: Run, n: nat, x: ListItem)
    requires Follows(run, n) && x in Collected(run, n)
    ensures exists i: nat :: i < n && ListedAt(run, i, x)
  {
    var k := n - 1;
    if x in run.page(k).items {
      PageRows(run, n, k, x);
    } else {
      FollowsPrefix(run, n);
      NothingInvented(run, k, x);
    }
  }

  /** A full page lies below its cursor and takes up as many ids as it has rows. */
  lemma CursorDrops(page: Page, rows: seq<ListItem>, contentType: Option<ContentType>, cursor: Option<Id>, limit: nat)
    requires OneRowPerId(rows) && IsPage(page, rows, contentType, cursor, limit) && cursor.Some? && page.next.Some?
    ensures page.next.value + PageLimit(limit) <= cursor.value
  {
    PageContents(page, rows, contentType, cursor, limit);
    PageSpan(page.items);
    assert page.items[0] in page.items;
  }

  ghost function Times(n: nat, size: nat): (r: nat)
    ensures size > 0 ==> r >= n
  {
    if n == 0 then 0 else Times(n - 1, size) + size
  }

  /** Each further call has a smaller cursor, by at least the page size. */
  lemma {:induction false} CursorsFall(run: Run, n: nat)
    requires n > 0 && Follows(run, n) && run.page(n - 1).next.Some?
    ensures run.page(0).next.Some?
    ensures run.page(n - 1).next.value + Times(n - 1, PageLimit(run.limit)) <= run.page(0).next.value
  {
    if n > 1 {
      var k := n - 1;
      FollowsPrefix(run, n);
      assert Continues(run, k - 1) && Answered(run, k);
      CursorsFall(run, k);
      CursorDrops(run.page(k), run.rows(k), run.contentType, CursorOf(run, k), run.limit);
    }
  }

  /** Descending ids take up room. */
  lemma {:induction false} PageSpan(s: seq<ListItem>)
    requires Descending(s) && s != []
    ensures s[0].id >= s[|s| - 1].id + (|s| - 1)
  {
    if |s| > 1 {
      PageSpan(s[1..]);
    }
  }

  /** The caller goes on as long as there is a next cursor. */
  ghost predicate GoesOn(run: Run, n: nat) {
    n > 0 && Follows(run, n) && run.page(n - 1).next.Some? ==> Follows(run, n + 1)
  }

  /** Every run ends, however the table grows: cursors fall, and there are only so many ids below the first. */
  lemma EveryRunEnds(run: Run)
    requires Follows(run, 1) && forall n: nat :: GoesOn(run, n)
    ensures exists n: nat :: Finished(run, n)
  {
    if forall n: nat :: !Finished(run, n) {
      assert !Finished(run, 1);
      var last := run.page(0).next.value + 2;
      StillRunning(run, last);
      CursorsFall(run, last);
    }
  }

  lemma {:induction false} StillRunning(run: Run, n: nat)
    requires n > 0 && Follows(run, 1) && (forall k: nat :: k <= n ==> !Finished(run, k)) &&
             (forall k: nat :: k < n ==> GoesOn(run, k))
    ensures Follows(run, n) && run.page(n - 1).next.Some?
  {
    if n > 1 {
      StillRunning(run, n - 1);
      assert GoesOn(run, n - 1);
    }
    assert !Finished(run, n);
  }

  // ----- tables that only shrink, and tables that stay -----

  /** Between calls rows are only deleted. */
  ghost predicate OnlyDeletes(run: Run, n: nat) {
    forall i: nat, x :: i < n && x in run.rows(i) ==> x in run.rows(0)
  }

  lemma {:induction false} FullPages(run: Run, n: nat)
    requires n > 0 && Follows(run, n)
    ensures |Collected(run, n - 1)| == Times(n - 1, PageLimit(run.limit))
  {
    if n > 1 {
      var k := n - 2;
      FollowsPrefix(run, n);
      FullPages(run, n - 1);
      assert Continues(run, k) && Answered(run, k);
      PageContents(run.page(k), run.rows(k), run.contentType, CursorOf(run, k), run.limit);
    }
  }

  lemma {:induction false} TimesIs(n: nat, size: nat)
    ensures Times(n, size) == n * size
  {
    if n > 0 {
      TimesIs(n - 1, size);
      assert n * size == (n - 1) * size + size;
    }
  }

  /**
   When rows are only deleted, a further call means that the full pages so far fit the rows there were, with one to
   spare.
   */
  lemma DeletionRunLength(run: Run, n: nat)
    requires n > 1 && Follows(run, n) && OnlyDeletes(run, n)
    ensures (n - 1) * PageLimit(run.limit) < |Filter(run.rows(0), OfType(run.contentType))|
  {
    FullPages(run, n);
    TimesIs(n - 1, PageLimit(run.limit));
    FollowsPrefix(run, n);
    var k := n - 2;
    assert Continues(run, k);
    var extra := RowLeftOver(run, n - 1);
    ListedAndLeft(run, n - 1, extra);
  }

  /** The rows listed so far and one that is left are different rows of the first table. */
  lemma ListedAndLeft(run: Run, n: nat, extra: ListItem)
    requires n > 0 && Follows(run, n) && OnlyDeletes(run, n) && run.page(n - 1).next.Some?
    requires extra in run.rows(n - 1) && OfType(run.contentType)(extra) && extra.id < run.page(n - 1).next.value
    ensures |Collected(run, n)| < |Filter(run.rows(0), OfType(run.contentType))|
  {
    var listed, kept := Collected(run, n), Filter(run.rows(0), OfType(run.contentType));
    FilterMembers(run.rows(0), OfType(run.contentType));
    forall x | x in listed ensures x in kept {
      NothingInvented(run, n, x);
    }
    CollectedAbove(run, n);
    DistinctFits(listed + [extra], kept);
  }

  /** A next cursor means that a row of the type below it was left for later. */
  lemma RowLeftOver(run: Run, n: nat) returns (x: ListItem)
    requires n > 0 && Follows(run, n) && run.page(n - 1).next.Some?
    ensures x in run.rows(n - 1) && OfType(run.contentType)(x) && x.id < run.page(n - 1).next.value
  {
    assert Answered(run, n - 1);
    var rest := Remaining(run.rows(n - 1), run.contentType, CursorOf(run, n - 1));
    RemainingRows(run.rows(n - 1), run.contentType, CursorOf(run, n - 1));
    x := rest[PageLimit(run.limit)];
    assert x in rest;
  }

  lemma StaticRowListed(run: Run, n: nat, x: ListItem)
    requires Finished(run, n) && forall i: nat :: i < n ==> run.rows(i) == run.rows(0)
    requires x in run.rows(0) && OfType(run.contentType)(x)
    ensures x in Collected(run, n)
  {
    assert HoldsId(run.rows(0), run.contentType, x.id);
    NothingSkipped(run, n, x.id);
    var y :| y in Collected(run, n) && y.id == x.id;
    NothingInvented(run, n, y);
    assert Answered(run, 0);
    SameRow(run.rows(0), x, y);
  }

  /** On a table that does not change, the pages put together are the whole listing. */
  lemma StaticRunListsAll(run: Run, n: nat)
    requires Finished(run, n) && forall i: nat :: i < n ==> run.rows(i) == run.rows(0)
    ensures Collected(run, n) == Selected(run.rows(0), run.contentType)
  {
    var listed, all := Collected(run, n), Selected(run.rows(0), run.contentType);
    assert Answered(run, 0);
    SelectedRows(run.rows(0), run.contentType);
    CollectedAbove(run, n);
    forall x ensures x in listed <==> x in all {
      if x in listed {
        NothingInvented(run, n, x);
      }
      if x in all {
        StaticRowListed(run, n, x);
      }
    }
    DistinctMultiset(listed, all);
    OrderedUnique(listed, all, Newer);
  }
}
