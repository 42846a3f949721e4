/** Keyset pagination: pages of a changing table, the walk that follows the cursors, and the simple
    sorted list. */
module Paging {
  import opened Basics

  /** (created_at, id); workers are listed by id alone. */
  datatype Key = Key(at: Instant, id: nat)

  predicate Smaller(a: Key, b: Key) {
    a.at < b.at || (a.at == b.at && a.id < b.id)
  }

  /** The order of a listing: runs and workers descend, steps ascend. */
  predicate Before(descending: bool, a: Key, b: Key) {
    if descending then Smaller(b, a) else Smaller(a, b)
  }

  /** The rows that a cursor leaves to be listed. */
  function Rest(table: set<Key>, descending: bool, cursor: Option<Key>): set<Key> {
    set k | k in table && (cursor.Some? ==> Before(descending, cursor.value, k))
  }

  predicate Sorted(descending: bool, s: seq<Key>) {
    forall i, j :: 0 <= i < j < |s| ==> Before(descending, s[i], s[j])
  }

  predicate IsLeast(s: set<Key>, descending: bool, least: Key) {
    least in s && forall k :: k in s && k != least ==> Before(descending, least, k)
  }

  lemma {:induction false} LeastExists(s: set<Key>, descending: bool)
    requires s != {}
    ensures exists k :: IsLeast(s, descending, k)
    decreases |s|
  {
    var some: Key :| some in s;
    var rest := s - {some};
    var least := some;
    if rest != {} {
      LeastExists(rest, descending);
      var best :| IsLeast(rest, descending, best);
      least := if Before(descending, best, some) then best else some;
    }
    forall k | k in s && k != least ensures Before(descending, least, k) {
      assert k == some || k in rest;
    }
    assert IsLeast(s, descending, least);
  }

  function Least(s: set<Key>, descending: bool): (least: Key)
    requires s != {}
    ensures least in s
    ensures forall k :: k in s && k != least ==> Before(descending, least, k)
  {
    LeastExists(s, descending);
    var least :| least in s && IsLeast(s, descending, least);
    least
  }

  /** ORDER BY */
  function SortedList(s: set<Key>, descending: bool): (r: seq<Key>)
    ensures |r| == |s|
    ensures forall k :: k in r <==> k in s
    ensures Sorted(descending, r)
    decreases |s|
  {
    if s == {} then []
    else
      var least := Least(s, descending);
      var rest := SortedList(s - {least}, descending);
      assert forall i :: 0 <= i < |rest| ==> Before(descending, least, rest[i]) by {
        forall i | 0 <= i < |rest| ensures Before(descending, least, rest[i]) {
          assert rest[i] in rest;
        }
      }
      assert forall k :: k in [least] + rest <==> k == least || k in rest;
      [least] + rest
  }

  datatype Page = Page(items: seq<Key>, nextCursor: Option<Key>, hasMore: bool)

  function Limited(rows: seq<Key>, n: nat): seq<Key> {
    if |rows| <= n then rows else rows[..n]
  }

  /** Rows were fetched one beyond the page. `alwaysCursor`: the run listing hands out a cursor with
      every non-empty page, the others only when there is more. */
  function PageFrom(rows: seq<Key>, size: nat, alwaysCursor: bool): Page {
    var hasMore := |rows| > size;
    var items := Limited(rows, size);
    Page(items,
         if items != [] && (hasMore || alwaysCursor) then Some(items[|items| - 1]) else None,
         hasMore)
  }

  function PageOf(table: set<Key>, descending: bool, cursor: Option<Key>, size: nat, alwaysCursor: bool): Page {
    PageFrom(Limited(SortedList(Rest(table, descending, cursor), descending), size + 1), size, alwaysCursor)
  }

  /** The page as the worker repository builds it, row by row. */
  method TakePage(rows: seq<Key>, size: nat) returns (page: Page)
    ensures page == PageFrom(rows, size, false)
  {
    if rows == [] {
      return Page([], None, false);
    }
    var hasMore := |rows| > size;
    var items := [];
    var limit := if |rows| < size then |rows| else size;
    for i := 0 to limit
      invariant items == rows[..i]
    {
      items := items + [rows[i]];
    }
    var nextCursor := if hasMore && items != [] then Some(items[|items| - 1]) else None;
    return Page(items, nextCursor, hasMore);
  }

  // ----- Walks -----

  /** Following the cursors while has_more: page i reads the table as it is at call i. */
  function Walk(tables: seq<set<Key>>, descending: bool, cursor: Option<Key>, size: nat, alwaysCursor: bool): seq<Key>
    requires size >= 1
    decreases |tables|
  {
    if tables == [] then []
    else
      var page := PageOf(tables[0], descending, cursor, size, alwaysCursor);
      page.items + if page.hasMore then Walk(tables[1..], descending, page.nextCursor, size, alwaysCursor) else []
  }

  /** The walk ended with has_more false. */
  predicate Finished(tables: seq<set<Key>>, descending: bool, cursor: Option<Key>, size: nat, alwaysCursor: bool)
    requires size >= 1
    decreases |tables|
  {
    tables != [] &&
    var page := PageOf(tables[0], descending, cursor, size, alwaysCursor);
    page.hasMore ==> Finished(tables[1..], descending, page.nextCursor, size, alwaysCursor)
  }

  predicate After(descending: bool, cursor: Option<Key>, k: Key) {
    cursor.Some? ==> Before(descending, cursor.value, k)
  }

  /** What one page gives: sorted rows after the cursor, and every row of the table that is not on the
      page lies after the next cursor, if there is more, or before the old one. */
  lemma PageIsPrefix(table: set<Key>, descending: bool, cursor: Option<Key>, size: nat, alwaysCursor: bool)
    requires size >= 1
    ensures var page := PageOf(table, descending, cursor, size, alwaysCursor);
            var all := SortedList(Rest(table, descending, cursor), descending);
            && page.items == Limited(all, size)
            && (page.hasMore <==> |all| > size)
            && (page.hasMore ==> |page.items| == size && page.nextCursor == Some(page.items[size - 1]))
  {
  }

  lemma PageCovers(table: set<Key>, descending: bool, cursor: Option<Key>, size: nat, alwaysCursor: bool, k: Key)
    requires size >= 1 && k in table && After(descending, cursor, k)
    ensures var page := PageOf(table, descending, cursor, size, alwaysCursor);
            k in page.items || (page.hasMore && After(descending, page.nextCursor, k))
  {
    PageIsPrefix(table, descending, cursor, size, alwaysCursor);
    var all := SortedList(Rest(table, descending, cursor), descending);
    assert k in all;
    var i :| 0 <= i < |all| && all[i] == k;
    if i >= size {
      assert Before(descending, all[size - 1], all[i]);
    }
  }

  /** A page followed by a walk from its cursor. */
  lemma PageThenSorted(descending: bool, cursor: Option<Key>, items: seq<Key>, later: seq<Key>)
    requires items != [] && Sorted(descending, items) && Sorted(descending, later)
    requires forall k :: k in items ==> After(descending, cursor, k)
    requires forall k :: k in later ==> After(descending, Some(items[|items| - 1]), k)
    ensures Sorted(descending, items + later)
    ensures forall k :: k in items + later ==> After(descending, cursor, k)
  {
    assert forall k :: k in later ==> Before(descending, items[|items| - 1], k);
    JoinSorted(descending, items, later);
    JoinAfter(descending, cursor, items, later);
  }

  /** The walk lists strictly in order, after the cursor: no row is listed twice, whatever is inserted
      or deleted meanwhile. */
  lemma {:induction false} WalkIsSorted(
    tables: seq<set<Key>>, descending: bool, cursor: Option<Key>, size: nat, alwaysCursor: bool)
    requires size >= 1
    ensures Sorted(descending, Walk(tables, descending, cursor, size, alwaysCursor))
    ensures forall k :: k in Walk(tables, descending, cursor, size, alwaysCursor) ==> After(descending, cursor, k)
    decreases |tables|
  {
    if tables != [] {
      var page := PageOf(tables[0], descending, cursor, size, alwaysCursor);
      PageIsSorted(tables[0], descending, cursor, size, alwaysCursor);
      if page.hasMore {
        WalkIsSorted(tables[1..], descending, page.nextCursor, size, alwaysCursor);
        PageThenSorted(descending, cursor, page.items,
                       Walk(tables[1..], descending, page.nextCursor, size, alwaysCursor));
      } else {
        assert page.items + [] == page.items;
      }
    }
  }

  lemma PageIsSorted(table: set<Key>, descending: bool, cursor: Option<Key>, size: nat, alwaysCursor: bool)
    requires size >= 1
    ensures var page := PageOf(table, descending, cursor, size, alwaysCursor);
            && Sorted(descending, page.items)
            && (forall k :: k in page.items ==> k in table && After(descending, cursor, k))
            && (page.hasMore ==> page.items != [] && page.nextCursor == Some(page.items[|page.items| - 1]))
  {
    PageIsPrefix(table, descending, cursor, size, alwaysCursor);
    var all := SortedList(Rest(table, descending, cursor), descending);
    forall k | k in Limited(all, size) ensures k in table && After(descending, cursor, k) {
      assert k in all;
    }
  }

  lemma JoinAfter(descending: bool, cursor: Option<Key>, a: seq<Key>, b: seq<Key>)
    requires a != []
    requires forall k :: k in a ==> After(descending, cursor, k)
    requires forall k :: k in b ==> Before(descending, a[|a| - 1], k)
    ensures forall k :: k in a + b ==> After(descending, cursor, k)
  {
    assert a[|a| - 1] in a;
  }

  /** Every listed row was in the table that its page read. */
  lemma {:induction false} WalkIsSound(
    tables: seq<set<Key>>, descending: bool, cursor: Option<Key>, size: nat, alwaysCursor: bool, k: Key)
    requires size >= 1 && k in Walk(tables, descending, cursor, size, alwaysCursor)
    ensures exists i :: 0 <= i < |tables| && k in tables[i]
    decreases |tables|
  {
    PageIsSorted(tables[0], descending, cursor, size, alwaysCursor);
    var page := PageOf(tables[0], descending, cursor, size, alwaysCursor);
    if k !in page.items {
      WalkIsSound(tables[1..], descending, page.nextCursor, size, alwaysCursor, k);
      var i :| 0 <= i < |tables[1..]| && k in tables[1..][i];
      assert k in tables[i + 1];
    }
  }

  lemma JoinSorted(descending: bool, a: seq<Key>, b: seq<Key>)
    requires Sorted(descending, a) && Sorted(descending, b) && a != []
    requires forall k :: k in b ==> Before(descending, a[|a| - 1], k)
    ensures Sorted(descending, a + b)
  {
    forall i, j | 0 <= i < j < |a + b| ensures Before(descending, (a + b)[i], (a + b)[j]) {
      if i < |a| <= j {
        assert (a + b)[j] in b;
        assert i < |a| - 1 ==> Before(descending, a[i], a[|a| - 1]);
      }
    }
  }

  /** A finished walk has listed every row that was there at every call. */
  lemma {:induction false} WalkIsComplete(
    tables: seq<set<Key>>, descending: bool, cursor: Option<Key>, size: nat, alwaysCursor: bool, k: Key)
    requires size >= 1 && Finished(tables, descending, cursor, size, alwaysCursor)
    requires After(descending, cursor, k) && forall i :: 0 <= i < |tables| ==> k in tables[i]
    ensures k in Walk(tables, descending, cursor, size, alwaysCursor)
    decreases |tables|
  {
    PageCovers(tables[0], descending, cursor, size, alwaysCursor, k);
    var page := PageOf(tables[0], descending, cursor, size, alwaysCursor);
    if k !in page.items {
      assert forall i :: 0 <= i < |tables[1..]| ==> tables[1..][i] == tables[i + 1];
      WalkIsComplete(tables[1..], descending, page.nextCursor, size, alwaysCursor, k);
    }
  }

  /** From call `n` on the table no longer grows; rows may still be deleted. */
  ghost predicate StopsGrowing(tables: seq<set<Key>>, n: nat) {
    forall i, j :: n <= i < j < |tables| ==> tables[j] <= tables[i]
  }

  /** Pages over a table that does not grow use it up: more calls than rows to list end the walk. */
  lemma {:induction false} ShrinkingWalkEnds(
    tables: seq<set<Key>>, descending: bool, cursor: Option<Key>, size: nat, alwaysCursor: bool)
    requires size >= 1 && tables != [] && StopsGrowing(tables, 0)
    requires |tables| > |Rest(tables[0], descending, cursor)|
    ensures Finished(tables, descending, cursor, size, alwaysCursor)
    decreases |tables|
  {
    var page := PageOf(tables[0], descending, cursor, size, alwaysCursor);
    PageIsPrefix(tables[0], descending, cursor, size, alwaysCursor);
    if page.hasMore {
      var next := page.nextCursor.value;
      RestShrinks(tables[0], descending, cursor, next);
      var rest := tables[1..];
      assert forall i :: 0 <= i < |rest| ==> rest[i] == tables[i + 1];
      assert tables[1] <= tables[0];
      SubsetSize(Rest(rest[0], descending, Some(next)), Rest(tables[0], descending, Some(next)));
      ShrinkingWalkEnds(rest, descending, Some(next), size, alwaysCursor);
    }
  }

  /** A walk over a table that stops growing at some call ends, whatever was inserted before: after that
      call no more pages are needed than the table then had rows. */
  lemma {:induction false} WalkEndsOnceGrowthStops(
    tables: seq<set<Key>>, n: nat, descending: bool, cursor: Option<Key>, size: nat, alwaysCursor: bool)
    requires size >= 1 && n < |tables| && StopsGrowing(tables, n) && |tables| - n > |tables[n]|
    ensures Finished(tables, descending, cursor, size, alwaysCursor)
    decreases n
  {
    if n == 0 {
      SubsetSize(Rest(tables[0], descending, cursor), tables[0]);
      ShrinkingWalkEnds(tables, descending, cursor, size, alwaysCursor);
    } else {
      var rest := tables[1..];
      assert forall i :: 0 <= i < |rest| ==> rest[i] == tables[i + 1];
      var page := PageOf(tables[0], descending, cursor, size, alwaysCursor);
      if page.hasMore {
        WalkEndsOnceGrowthStops(rest, n - 1, descending, page.nextCursor, size, alwaysCursor);
      }
    }
  }

  lemma RestShrinks(table: set<Key>, descending: bool, cursor: Option<Key>, next: Key)
    requires next in Rest(table, descending, cursor)
    ensures |Rest(table, descending, Some(next))| < |Rest(table, descending, cursor)|
  {
    var a, b := Rest(table, descending, Some(next)), Rest(table, descending, cursor);
    assert a <= b && next in b - a;
    assert b == a + (b - a);
  }

  /** With the table at rest the walk is the sorted list. */
  lemma WalkIsSortedList(
    tables: seq<set<Key>>, table: set<Key>, descending: bool, size: nat, alwaysCursor: bool)
    requires size >= 1 && |tables| > |table|
    requires forall i :: 0 <= i < |tables| ==> tables[i] == table
    ensures Walk(tables, descending, None, size, alwaysCursor) == SortedList(table, descending)
  {
    WalkEndsOnceGrowthStops(tables, 0, descending, None, size, alwaysCursor);
    WalkIsSorted(tables, descending, None, size, alwaysCursor);
    var w := Walk(tables, descending, None, size, alwaysCursor);
    forall k ensures k in w <==> k in SortedList(table, descending) {
      if k in w {
        WalkIsSound(tables, descending, None, size, alwaysCursor, k);
      }
      if k in table {
        WalkIsComplete(tables, descending, None, size, alwaysCursor, k);
      }
    }
    SortedIsUnique(w, SortedList(table, descending), descending);
  }

  lemma EmptyTogether(a: seq<Key>, b: seq<Key>)
    requires forall k :: k in a <==> k in b
    ensures a == [] <==> b == []
  {
    if a != [] {
      assert a[0] in b;
    }
    if b != [] {
      assert b[0] in a;
    }
  }

  lemma {:induction false} SortedIsUnique(a: seq<Key>, b: seq<Key>, descending: bool)
    requires Sorted(descending, a) && Sorted(descending, b)
    requires forall k :: k in a <==> k in b
    ensures a == b
    decreases |a|
  {
    EmptyTogether(a, b);
    if a != [] {
      assert a[0] in b;
      assert b[0] in a;
      assert a[0] == b[0];
      forall k ensures k in a[1..] <==> k in b[1..] {
        assert k in a[1..] <==> k in a && k != a[0];
        assert k in b[1..] <==> k in b && k != b[0];
      }
      SortedIsUnique(a[1..], b[1..], descending);
    }
  }

  /** What a service makes of a requested page size: never less than one. */
  function NormalizePageSize(requested: int, default: nat, max: nat): (size: nat)
    requires 1 <= default <= max
    ensures 1 <= size <= max
    ensures 1 <= requested <= max ==> size == requested
    ensures requested <= 0 ==> size == default
    ensures requested > max ==> size == max
  {
    if requested <= 0 then default else if requested <= max then requested else max
  }
}
