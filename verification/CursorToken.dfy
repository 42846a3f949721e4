/** Page tokens: a cursor as text, truncated to milliseconds, and the walk of a client that only holds
    tokens. */
module CursorToken {
  import opened Basics
  import opened Paging
  import opened TokenText

  /** The milliseconds that a chrono UTC timestamp can hold. */
  const MIN_MS: int := -8_334_601_228_800_000
  const MAX_MS: int := 8_210_266_876_799_999

  predicate IsAscii(s: string) {
    forall i :: 0 <= i < |s| ==> s[i] as int < 128
  }

  function AsBytes(s: string): Bytes
    requires IsAscii(s)
  {
    seq(|s|, i requires 0 <= i < |s| => s[i] as int as Byte)
  }

  /** No text outside ASCII can be a number or a UUID, so it is refused here. */
  function AsText(bytes: Bytes): Option<string> {
    if forall i :: 0 <= i < |bytes| ==> bytes[i] as int < 128
    then Some(seq(|bytes|, i requires 0 <= i < |bytes| => bytes[i] as int as char))
    else None
  }

  /** `splitn(2, ':')` of a text that holds the separator. */
  function SplitAtColon(s: string): Option<(string, string)> {
    if s == "" then None
    else if s[0] == ':' then Some(("", s[1..]))
    else
      match SplitAtColon(s[1..])
      case None => None
      case Some((before, after)) => Some(([s[0]] + before, after))
  }

  lemma {:induction false} SplitJoined(before: string, after: string)
    requires ':' !in before
    ensures SplitAtColon(before + ":" + after) == Some((before, after))
  {
    var s := before + ":" + after;
    if before != "" {
      SplitJoined(before[1..], after);
      assert s[1..] == before[1..] + ":" + after;
      assert [before[0]] + before[1..] == before;
    } else {
      assert s[1..] == after;
    }
  }

  function CursorText(ms: int, id: nat): (s: string)
    ensures IsAscii(s)
  {
    PrintIsAscii(ms, id);
    PrintInt(ms) + ":" + PrintUuid(id)
  }

  function EncodeCursor(ms: int, id: nat): string {
    Encode(AsBytes(CursorText(ms, id)))
  }

  function ParseCursorText(text: string): Result<(int, nat)> {
    var parts := SplitAtColon(text);
    if parts.None? then Err(InvalidArgument)
    else
      var ms, id := ParseI64(parts.value.0), ParseUuid(parts.value.1);
      if ms.None? || !(MIN_MS <= ms.value <= MAX_MS) || id.None? then Err(InvalidArgument)
      else Ok((ms.value, id.value))
  }

  function DecodeCursor(token: string): Result<(int, nat)> {
    var decoded := Decode(token);
    if decoded.None? then Err(InvalidArgument)
    else
      var text := AsText(decoded.value);
      if text.None? then Err(InvalidArgument) else ParseCursorText(text.value)
  }

  lemma {:induction false} HexIsAscii(n: nat, count: nat)
    ensures IsAscii(PrintHex(n, count))
  {
    if count > 0 {
      HexIsAscii(n / 16, count - 1);
    }
  }

  lemma PrintIsAscii(ms: int, id: nat)
    ensures IsAscii(PrintInt(ms) + ":" + PrintUuid(id))
  {
    var h := PrintHex(id, 32);
    HexIsAscii(id, 32);
    assert IsAscii(h[..8]) && IsAscii(h[8..12]) && IsAscii(h[12..16]) && IsAscii(h[16..20]) && IsAscii(h[20..]);
    assert IsAscii(Hyphenate(h));
    assert IsAscii(PrintInt(ms));
  }

  lemma TextRoundTrip(s: string)
    requires IsAscii(s)
    ensures AsText(AsBytes(s)) == Some(s)
  {
    assert AsText(AsBytes(s)).Some?;
    assert AsText(AsBytes(s)).value == s;
  }

  lemma CursorTextRoundTrip(ms: int, id: nat)
    requires MIN_MS <= ms <= MAX_MS && id < UUID_LIMIT
    ensures ParseCursorText(CursorText(ms, id)) == Ok((ms, id))
  {
    var before, after := PrintInt(ms), PrintUuid(id);
    PrintedIntHasNoColon(ms);
    SplitJoined(before, after);
    assert ParseI64(before) == Some(ms) by {
      IntRoundTrip(ms);
    }
    assert ParseUuid(after) == Some(id) by {
      UuidRoundTrip(id);
    }
  }

  /** Every in-range millisecond and every identifier comes back. */
  lemma TokenRoundTrip(ms: int, id: nat)
    requires MIN_MS <= ms <= MAX_MS && id < UUID_LIMIT
    ensures DecodeCursor(EncodeCursor(ms, id)) == Ok((ms, id))
  {
    var text := CursorText(ms, id);
    Base64RoundTrip(AsBytes(text));
    TextRoundTrip(text);
    CursorTextRoundTrip(ms, id);
  }

  // ----- The walk that holds tokens -----

  function Millis(k: Key): int {
    k.at / MICROS_PER_MILLI
  }

  predicate Representable(k: Key) {
    MIN_MS <= Millis(k) <= MAX_MS && k.id < UUID_LIMIT
  }

  function TokenOf(k: Key): string {
    EncodeCursor(Millis(k), k.id)
  }

  /** The key that the token of `k` stands for. */
  function Truncated(k: Key): Key {
    Key(Millis(k) * MICROS_PER_MILLI, k.id)
  }

  function ReadToken(token: string): Result<Option<Key>> {
    if token == "" then Ok(None)
    else
      match DecodeCursor(token)
      case Err(e) => Err(e)
      case Ok((ms, id)) => Ok(Some(Key(ms * MICROS_PER_MILLI, id)))
  }

  lemma TokenIsTruncation(k: Key)
    requires Representable(k)
    ensures ReadToken(TokenOf(k)) == Ok(Some(Truncated(k)))
  {
    TokenRoundTrip(Millis(k), k.id);
    assert AsBytes(CursorText(Millis(k), k.id)) != [];
  }

  /** A client's walk: each page's token is handed in for the next page; a refused token ends it. */
  function TokenWalk(tables: seq<set<Key>>, descending: bool, token: string, size: nat, alwaysCursor: bool): seq<Key>
    requires size >= 1
    decreases |tables|
  {
    if tables == [] || ReadToken(token).Err? then []
    else
      var page := PageOf(tables[0], descending, ReadToken(token).value, size, alwaysCursor);
      page.items
      + if page.hasMore then TokenWalk(tables[1..], descending, TokenOf(page.nextCursor.value), size, alwaysCursor)
        else []
  }

  predicate TokenFinished(tables: seq<set<Key>>, descending: bool, token: string, size: nat, alwaysCursor: bool)
    requires size >= 1
    decreases |tables|
  {
    tables != [] && ReadToken(token).Ok? &&
    var page := PageOf(tables[0], descending, ReadToken(token).value, size, alwaysCursor);
    page.hasMore ==> TokenFinished(tables[1..], descending, TokenOf(page.nextCursor.value), size, alwaysCursor)
  }

  ghost predicate AllRepresentable(tables: seq<set<Key>>) {
    forall i, k :: 0 <= i < |tables| && k in tables[i] ==> Representable(k)
  }

  // ----- The same walk without the text -----

  /** The store's walk, except that every cursor is cut to its millisecond on the way through the client. */
  function TruncatedWalk(
    tables: seq<set<Key>>, descending: bool, cursor: Option<Key>, size: nat, alwaysCursor: bool): seq<Key>
    requires size >= 1
    decreases |tables|
  {
    if tables == [] then []
    else
      var page := PageOf(tables[0], descending, cursor, size, alwaysCursor);
      page.items
      + if page.hasMore
        then TruncatedWalk(tables[1..], descending, Some(Truncated(page.nextCursor.value)), size, alwaysCursor)
        else []
  }

  predicate TruncatedFinished(
    tables: seq<set<Key>>, descending: bool, cursor: Option<Key>, size: nat, alwaysCursor: bool)
    requires size >= 1
    decreases |tables|
  {
    tables != [] &&
    var page := PageOf(tables[0], descending, cursor, size, alwaysCursor);
    page.hasMore ==>
      TruncatedFinished(tables[1..], descending, Some(Truncated(page.nextCursor.value)), size, alwaysCursor)
  }

  /** A page's cursor is a row of the table it read. */
  lemma NextCursorIsRow(table: set<Key>, descending: bool, cursor: Option<Key>, size: nat, alwaysCursor: bool)
    requires size >= 1 && PageOf(table, descending, cursor, size, alwaysCursor).hasMore
    ensures var next := PageOf(table, descending, cursor, size, alwaysCursor).nextCursor;
            next.Some? && next.value in Rest(table, descending, cursor)
  {
    PageIsSorted(table, descending, cursor, size, alwaysCursor);
  }

  lemma {:induction false} TokensTruncate(
    tables: seq<set<Key>>, descending: bool, token: string, cursor: Option<Key>, size: nat, alwaysCursor: bool)
    requires size >= 1 && AllRepresentable(tables) && ReadToken(token) == Ok(cursor)
    ensures TokenWalk(tables, descending, token, size, alwaysCursor)
         == TruncatedWalk(tables, descending, cursor, size, alwaysCursor)
    ensures TokenFinished(tables, descending, token, size, alwaysCursor)
       <==> TruncatedFinished(tables, descending, cursor, size, alwaysCursor)
    decreases |tables|
  {
    if tables != [] {
      var page := PageOf(tables[0], descending, cursor, size, alwaysCursor);
      if page.hasMore {
        NextCursorIsRow(tables[0], descending, cursor, size, alwaysCursor);
        var next := page.nextCursor.value;
        TokenIsTruncation(next);
        assert forall i :: 0 <= i < |tables[1..]| ==> tables[1..][i] == tables[i + 1];
        TokensTruncate(tables[1..], descending, TokenOf(next), Some(Truncated(next)), size, alwaysCursor);
      }
    }
  }

  lemma {:induction false} WholeMillisNeedNoCut(
    tables: seq<set<Key>>, descending: bool, cursor: Option<Key>, size: nat, alwaysCursor: bool)
    requires size >= 1
    requires forall i, k :: 0 <= i < |tables| && k in tables[i] ==> k.at % MICROS_PER_MILLI == 0
    ensures TruncatedWalk(tables, descending, cursor, size, alwaysCursor)
         == Walk(tables, descending, cursor, size, alwaysCursor)
    decreases |tables|
  {
    if tables != [] {
      var page := PageOf(tables[0], descending, cursor, size, alwaysCursor);
      if page.hasMore {
        NextCursorIsRow(tables[0], descending, cursor, size, alwaysCursor);
        var next := page.nextCursor.value;
        assert Truncated(next) == next;
        assert forall i :: 0 <= i < |tables[1..]| ==> tables[1..][i] == tables[i + 1];
        WholeMillisNeedNoCut(tables[1..], descending, Some(next), size, alwaysCursor);
      }
    }
  }

  /** When every row was created on a whole millisecond, the client's walk is the store's walk. */
  lemma TokenWalkIsWalk(tables: seq<set<Key>>, descending: bool, size: nat, alwaysCursor: bool)
    requires size >= 1 && AllRepresentable(tables)
    requires forall i, k :: 0 <= i < |tables| && k in tables[i] ==> k.at % MICROS_PER_MILLI == 0
    ensures TokenWalk(tables, descending, "", size, alwaysCursor) == Walk(tables, descending, None, size, alwaysCursor)
  {
    TokensTruncate(tables, descending, "", None, size, alwaysCursor);
    WholeMillisNeedNoCut(tables, descending, None, size, alwaysCursor);
  }

  // ----- What the cut does -----

  /** The row `r` lies on the other side of the token of `k` than of `k` itself: both fall into one
      millisecond and the cut-off micros decide. A descending listing then skips `r`, an ascending one
      lists it again. */
  predicate Misread(descending: bool, k: Key, r: Key) {
    && Millis(r) == Millis(k)
    && (if descending
        then Smaller(r, k) && !(r.at % MICROS_PER_MILLI == 0 && r.id < k.id)
        else !Smaller(k, r) && !(r.at % MICROS_PER_MILLI == 0 && r.id <= k.id))
  }

  lemma MisreadMeans(descending: bool, k: Key, r: Key)
    ensures Misread(descending, k, r) <==> Before(descending, k, r) != Before(descending, Truncated(k), r)
    ensures Misread(descending, k, r) ==> Before(descending, k, r) == descending
  {
    assert k.at == Millis(k) * MICROS_PER_MILLI + k.at % MICROS_PER_MILLI;
    assert r.at == Millis(r) * MICROS_PER_MILLI + r.at % MICROS_PER_MILLI;
  }

  /** One page: the token leaves the same rows as the cursor exactly if no row is misread. */
  lemma TokenLeavesSameRows(table: set<Key>, descending: bool, k: Key)
    ensures Rest(table, descending, Some(Truncated(k))) == Rest(table, descending, Some(k))
       <==> forall r :: r in table ==> !Misread(descending, k, r)
  {
    var byToken, byCursor := Rest(table, descending, Some(Truncated(k))), Rest(table, descending, Some(k));
    forall r | r in table ensures Misread(descending, k, r) <==> (r in byToken) != (r in byCursor) {
      MisreadMeans(descending, k, r);
    }
  }

  lemma LaterIsAfter(next: Key, later: seq<Key>)
    requires forall k :: k in later ==> After(true, Some(Truncated(next)), k)
    ensures forall k :: k in later ==> Before(true, next, k)
  {
    forall k | k in later ensures Before(true, next, k) {
      MisreadMeans(true, next, k);
    }
  }

  lemma {:induction false} CutDescendingIsSorted(
    tables: seq<set<Key>>, cursor: Option<Key>, size: nat, alwaysCursor: bool)
    requires size >= 1
    ensures var w := TruncatedWalk(tables, true, cursor, size, alwaysCursor);
            Sorted(true, w) && forall k :: k in w ==> After(true, cursor, k)
    decreases |tables|
  {
    if tables != [] {
      var page := PageOf(tables[0], true, cursor, size, alwaysCursor);
      PageIsSorted(tables[0], true, cursor, size, alwaysCursor);
      if page.hasMore {
        var next := page.nextCursor.value;
        CutDescendingIsSorted(tables[1..], Some(Truncated(next)), size, alwaysCursor);
        var later := TruncatedWalk(tables[1..], true, Some(Truncated(next)), size, alwaysCursor);
        LaterIsAfter(next, later);
        JoinSorted(true, page.items, later);
        JoinAfter(true, cursor, page.items, later);
        assert TruncatedWalk(tables, true, cursor, size, alwaysCursor) == page.items + later;
      } else {
        assert TruncatedWalk(tables, true, cursor, size, alwaysCursor) == page.items;
      }
    }
  }

  /** Descending, a client never sees a row twice, whatever the timestamps. */
  lemma DescendingNeverRepeats(tables: seq<set<Key>>, size: nat, alwaysCursor: bool)
    requires size >= 1 && AllRepresentable(tables)
    ensures Sorted(true, TokenWalk(tables, true, "", size, alwaysCursor))
  {
    TokensTruncate(tables, true, "", None, size, alwaysCursor);
    CutDescendingIsSorted(tables, None, size, alwaysCursor);
  }

  lemma {:induction false} CutAscendingIsComplete(
    tables: seq<set<Key>>, cursor: Option<Key>, size: nat, alwaysCursor: bool, k: Key)
    requires size >= 1 && TruncatedFinished(tables, false, cursor, size, alwaysCursor)
    requires After(false, cursor, k) && forall i :: 0 <= i < |tables| ==> k in tables[i]
    ensures k in TruncatedWalk(tables, false, cursor, size, alwaysCursor)
    decreases |tables|
  {
    PageCovers(tables[0], false, cursor, size, alwaysCursor, k);
    var page := PageOf(tables[0], false, cursor, size, alwaysCursor);
    if k !in page.items {
      NextCursorIsRow(tables[0], false, cursor, size, alwaysCursor);
      var next := page.nextCursor.value;
      MisreadMeans(false, next, k);
      assert forall i :: 0 <= i < |tables[1..]| ==> tables[1..][i] == tables[i + 1];
      CutAscendingIsComplete(tables[1..], Some(Truncated(next)), size, alwaysCursor, k);
    }
  }

  /** Ascending, a client that reaches the end has seen every row that was there throughout. */
  lemma AscendingNeverLoses(tables: seq<set<Key>>, size: nat, alwaysCursor: bool, k: Key)
    requires size >= 1 && AllRepresentable(tables) && TokenFinished(tables, false, "", size, alwaysCursor)
    requires forall i :: 0 <= i < |tables| ==> k in tables[i]
    ensures k in TokenWalk(tables, false, "", size, alwaysCursor)
  {
    TokensTruncate(tables, false, "", None, size, alwaysCursor);
    CutAscendingIsComplete(tables, None, size, alwaysCursor, k);
  }

  // ----- When the client's listing is the sorted list -----

  /** One more call than there are rows, all on the same table. */
  function Quiet(table: set<Key>): seq<set<Key>> {
    seq(|table| + 1, i => table)
  }

  /** No page that has rows after it can end on a `k` whose token misreads a row. */
  ghost predicate TokensLossless(table: set<Key>, descending: bool) {
    forall k, last, r :: k in table && last in table && r in table && Before(descending, k, last)
      ==> !Misread(descending, k, r)
  }

  /** A client that asks for pages of `size` rows of a table at rest gets the sorted list. */
  predicate ListsInOrder(table: set<Key>, descending: bool, size: nat, alwaysCursor: bool)
    requires size >= 1
  {
    TokenWalk(Quiet(table), descending, "", size, alwaysCursor) == SortedList(table, descending)
  }

  /** It does so for every page size if and only if no page can end inside a millisecond that its token
      splits. */
  lemma TokenListingIsSortedList(table: set<Key>, descending: bool, alwaysCursor: bool)
    requires forall k :: k in table ==> Representable(k)
    ensures TokensLossless(table, descending)
       <==> forall size: nat :: size >= 1 ==> ListsInOrder(table, descending, size, alwaysCursor)
  {
    if TokensLossless(table, descending) {
      forall size: nat | size >= 1 ensures ListsInOrder(table, descending, size, alwaysCursor) {
        LosslessListsInOrder(table, descending, size, alwaysCursor);
      }
    } else {
      var k, last, r :| k in table && last in table && r in table && Before(descending, k, last)
                        && Misread(descending, k, r);
      var size := MisreadBreaksListing(table, descending, k, last, r, alwaysCursor);
      assert !ListsInOrder(table, descending, size, alwaysCursor) by {
        TokensTruncate(Quiet(table), descending, "", None, size, alwaysCursor);
      }
    }
  }

  lemma LosslessListsInOrder(table: set<Key>, descending: bool, size: nat, alwaysCursor: bool)
    requires forall k :: k in table ==> Representable(k)
    requires size >= 1 && TokensLossless(table, descending)
    ensures ListsInOrder(table, descending, size, alwaysCursor)
  {
    TokensTruncate(Quiet(table), descending, "", None, size, alwaysCursor);
    LosslessWalk(Quiet(table), table, descending, None, None, size, alwaysCursor);
    WalkIsSortedList(Quiet(table), table, descending, size, alwaysCursor);
  }

  lemma {:induction false} LosslessWalk(
    tables: seq<set<Key>>, table: set<Key>, descending: bool, cut: Option<Key>, cursor: Option<Key>, size: nat,
    alwaysCursor: bool)
    requires size >= 1 && forall i :: 0 <= i < |tables| ==> tables[i] == table
    requires TokensLossless(table, descending)
    requires Rest(table, descending, cut) == Rest(table, descending, cursor)
    ensures TruncatedWalk(tables, descending, cut, size, alwaysCursor)
         == Walk(tables, descending, cursor, size, alwaysCursor)
    decreases |tables|
  {
    if tables != [] {
      var page := PageOf(table, descending, cursor, size, alwaysCursor);
      assert tables[0] == table && page == PageOf(table, descending, cut, size, alwaysCursor);
      if page.hasMore {
        NextCursorIsRow(table, descending, cursor, size, alwaysCursor);
        var next := page.nextCursor.value;
        MoreMeansLater(table, descending, cursor, size, alwaysCursor);
        TokenLeavesSameRows(table, descending, next);
        assert forall i :: 0 <= i < |tables[1..]| ==> tables[1..][i] == tables[i + 1];
        LosslessWalk(tables[1..], table, descending, Some(Truncated(next)), Some(next), size, alwaysCursor);
      }
    }
  }

  lemma MoreMeansLater(table: set<Key>, descending: bool, cursor: Option<Key>, size: nat, alwaysCursor: bool)
    requires size >= 1 && PageOf(table, descending, cursor, size, alwaysCursor).hasMore
    ensures var next := PageOf(table, descending, cursor, size, alwaysCursor).nextCursor;
            next.Some? && exists last :: last in table && Before(descending, next.value, last)
  {
    PageIsPrefix(table, descending, cursor, size, alwaysCursor);
    var all := SortedList(Rest(table, descending, cursor), descending);
    assert all[size] in all && Before(descending, all[size - 1], all[size]);
  }

  lemma SortedPositions(s: seq<Key>, descending: bool, x: Key, y: Key) returns (i: nat, j: nat)
    requires Sorted(descending, s) && x in s && y in s && Before(descending, x, y)
    ensures i < j < |s| && s[i] == x && s[j] == y
  {
    i :| 0 <= i < |s| && s[i] == x;
    j :| 0 <= j < |s| && s[j] == y;
    InOrder(s, descending, j, i);
  }

  lemma InOrder(s: seq<Key>, descending: bool, i: nat, j: nat)
    requires Sorted(descending, s) && i < |s| && j < |s|
    ensures i < j ==> Before(descending, s[i], s[j])
  {
  }

  lemma FirstPage(table: set<Key>, descending: bool, size: nat, alwaysCursor: bool)
    requires 1 <= size < |SortedList(table, descending)|
    ensures var all := SortedList(table, descending);
            PageOf(table, descending, None, size, alwaysCursor) == Page(all[..size], Some(all[size - 1]), true)
  {
    assert Rest(table, descending, None) == table;
    PageIsPrefix(table, descending, None, size, alwaysCursor);
  }

  /** The page size that makes the first page end on `k` breaks the listing. */
  lemma MisreadBreaksListing(
    table: set<Key>, descending: bool, k: Key, last: Key, r: Key, alwaysCursor: bool) returns (size: nat)
    requires k in table && last in table && r in table && Before(descending, k, last) && Misread(descending, k, r)
    ensures size >= 1
    ensures TruncatedWalk(Quiet(table), descending, None, size, alwaysCursor) != SortedList(table, descending)
  {
    var i, j := SortedPositions(SortedList(table, descending), descending, k, last);
    size := i + 1;
    FirstPage(table, descending, size, alwaysCursor);
    FirstPageThenRest(table, descending, k, size, alwaysCursor);
    var tables := Quiet(table)[1..];
    var later := TruncatedWalk(tables, descending, Some(Truncated(k)), size, alwaysCursor);
    MisreadShows(table, tables, descending, k, r, size, alwaysCursor, later);
    MisreadMeans(descending, k, r);
    LaterDiffers(SortedList(table, descending), descending, size, r, later);
  }

  lemma FirstPageThenRest(table: set<Key>, descending: bool, k: Key, size: nat, alwaysCursor: bool)
    requires 1 <= size < |SortedList(table, descending)|
    requires PageOf(table, descending, None, size, alwaysCursor)
          == Page(SortedList(table, descending)[..size], Some(k), true)
    ensures Quiet(table)[1..] != [] && forall i :: 0 <= i < |Quiet(table)[1..]| ==> Quiet(table)[1..][i] == table
    ensures TruncatedWalk(Quiet(table), descending, None, size, alwaysCursor)
         == SortedList(table, descending)[..size]
          + TruncatedWalk(Quiet(table)[1..], descending, Some(Truncated(k)), size, alwaysCursor)
  {
    assert |Quiet(table)| == |table| + 1 >= 2;
    assert Quiet(table)[0] == table;
  }

  lemma LaterDiffers(all: seq<Key>, descending: bool, size: nat, r: Key, later: seq<Key>)
    requires Sorted(descending, all) && 1 <= size < |all| && r in all
    requires descending ==> Before(descending, all[size - 1], r) && r !in later
    requires !descending ==> later != [] && !Before(descending, all[size - 1], later[0])
    ensures all[..size] + later != all
  {
    var joined := all[..size] + later;
    if descending {
      var j :| 0 <= j < |all| && all[j] == r;
      InOrder(all, descending, j, size - 1);
      assert j >= size;
      assert j < |joined| ==> joined[j] == later[j - size] && joined[j] != all[j];
    } else {
      InOrder(all, descending, size - 1, size);
      assert joined[size] == later[0] && joined[size] != all[size];
    }
  }

  /** After the token of `k`: descending, `r` is gone; ascending, a row not after `k` comes first. */
  lemma MisreadShows(
    table: set<Key>, tables: seq<set<Key>>, descending: bool, k: Key, r: Key, size: nat, alwaysCursor: bool,
    later: seq<Key>)
    requires size >= 1 && tables != [] && (forall i :: 0 <= i < |tables| ==> tables[i] == table)
    requires k in table && r in table && Misread(descending, k, r)
    requires later == TruncatedWalk(tables, descending, Some(Truncated(k)), size, alwaysCursor)
    ensures descending ==> r !in later
    ensures !descending ==> later != [] && !Before(descending, k, later[0])
  {
    MisreadMeans(descending, k, r);
    if descending {
      CutDescendingIsSorted(tables, Some(Truncated(k)), size, alwaysCursor);
    } else {
      var rest := SortedList(Rest(table, descending, Some(Truncated(k))), descending);
      assert r in rest;
      PageIsPrefix(table, descending, Some(Truncated(k)), size, alwaysCursor);
      assert later[0] == rest[0];
      var m :| 0 <= m < |rest| && rest[m] == r;
      assert m > 0 ==> Before(descending, rest[0], rest[m]);
    }
  }

  lemma {:induction false} CutStalls(
    tables: seq<set<Key>>, table: set<Key>, cursor: Option<Key>, k: Key, last: Key, alwaysCursor: bool)
    requires forall i :: 0 <= i < |tables| ==> tables[i] == table
    requires IsLeast(table, false, k) && last in table && last != k && k.at % MICROS_PER_MILLI != 0
    requires Rest(table, false, cursor) == table
    ensures TruncatedWalk(tables, false, cursor, 1, alwaysCursor) == seq(|tables|, i => k)
    ensures !TruncatedFinished(tables, false, cursor, 1, alwaysCursor)
    decreases |tables|
  {
    if tables != [] {
      assert PageOf(tables[0], false, cursor, 1, alwaysCursor) == Page([k], Some(k), true) by {
        StallingPage(table, cursor, k, last, alwaysCursor);
      }
      assert Rest(table, false, Some(Truncated(k))) == table;
      assert forall i :: 0 <= i < |tables[1..]| ==> tables[1..][i] == tables[i + 1];
      CutStalls(tables[1..], table, Some(Truncated(k)), k, last, alwaysCursor);
    }
  }

  lemma StallingPage(table: set<Key>, cursor: Option<Key>, k: Key, last: Key, alwaysCursor: bool)
    requires IsLeast(table, false, k) && last in table && last != k && Rest(table, false, cursor) == table
    ensures PageOf(table, false, cursor, 1, alwaysCursor) == Page([k], Some(k), true)
  {
    var all := SortedList(table, false);
    PageIsPrefix(table, false, cursor, 1, alwaysCursor);
    var i, j := SortedPositions(all, false, k, last);
    assert all[0] in table;
    InOrder(all, false, 0, i);
    assert Limited(all, 1) == [k];
  }

  /** Ascending with pages of one row, a first row created inside a millisecond is handed out for ever. */
  lemma AscendingStalls(calls: nat, table: set<Key>, k: Key, last: Key, alwaysCursor: bool)
    requires forall r :: r in table ==> Representable(r)
    requires IsLeast(table, false, k) && last in table && last != k && k.at % MICROS_PER_MILLI != 0
    ensures TokenWalk(seq(calls, i => table), false, "", 1, alwaysCursor) == seq(calls, i => k)
    ensures !TokenFinished(seq(calls, i => table), false, "", 1, alwaysCursor)
  {
    var tables := seq(calls, i => table);
    assert Rest(table, false, None) == table;
    TokensTruncate(tables, false, "", None, 1, alwaysCursor);
    CutStalls(tables, table, None, k, last, alwaysCursor);
  }
}
