/**
 Paging through the items of a dataset. The fake store (internal/fake/metadata_store.go) sorts the items and slices
 them after the cursor's position; the SQL stores (internal/metadata/sqlite, internal/metadata/postgres) select the
 rows whose key is greater than the cursor's and ask for one row more than the limit.
 */
module Paging {
  import opened Wrappers

  datatype Item = Item(datasetId: string, createdAt: int, itemId: string)

  // ---------- The order of items ----------

  predicate TextLess(a: string, b: string) {
    b != [] && (a == [] || a[0] < b[0] || (a[0] == b[0] && TextLess(a[1..], b[1..])))
  }

  predicate Before(a: Item, b: Item) {
    a.createdAt < b.createdAt || (a.createdAt == b.createdAt && TextLess(a.itemId, b.itemId))
  }

  lemma {:induction false} TextLessOrder(a: string, b: string, c: string)
    ensures !TextLess(a, a)
    ensures TextLess(a, b) || a == b || TextLess(b, a)
    ensures TextLess(a, b) && TextLess(b, c) ==> TextLess(a, c)
    decreases |a|
  {
    if a != [] {
      TextLessOrder(a[1..], if b == [] then [] else b[1..], if c == [] then [] else c[1..]);
      assert b != [] && a[0] == b[0] && a[1..] == b[1..] ==> a == [a[0]] + a[1..] == b;
    }
  }

  /** A strict order, total on items of different ids. */
  lemma BeforeOrder(a: Item, b: Item, c: Item)
    ensures !Before(a, a)
    ensures Before(a, b) ==> !Before(b, a)
    ensures a.itemId != b.itemId ==> Before(a, b) || Before(b, a)
    ensures Before(a, b) && Before(b, c) ==> Before(a, c)
  {
    hide TextLess;
    TextLessOrder(a.itemId, b.itemId, c.itemId);
    TextLessOrder(a.itemId, b.itemId, a.itemId);
  }

  /** Older items come first, and of one time those with the smaller id, character by character. */
  lemma BeforeIff(a: Item, b: Item)
    ensures Before(a, b) <==>
              || a.createdAt < b.createdAt
              || (a.createdAt == b.createdAt && exists k :: DifferAt(a.itemId, b.itemId, k))
  {
    hide TextLess;
    TextLessIff(a.itemId, b.itemId);
  }

  predicate DifferAt(a: string, b: string, k: int) {
    0 <= k <= |a| && k < |b| && a[..k] == b[..k] && (k == |a| || a[k] < b[k])
  }

  lemma {:induction false} TextLessIff(a: string, b: string)
    ensures TextLess(a, b) <==> exists k :: DifferAt(a, b, k)
    decreases |a|
  {
    if a == [] {
      assert b != [] ==> DifferAt(a, b, 0);
    } else if b != [] {
      TextLessIff(a[1..], b[1..]);
      if a[0] < b[0] {
        assert DifferAt(a, b, 0);
      }
      if TextLess(a, b) && a[0] == b[0] {
        var k :| DifferAt(a[1..], b[1..], k);
        assert a[..k + 1] == [a[0]] + a[1..][..k] && b[..k + 1] == [b[0]] + b[1..][..k];
        assert DifferAt(a, b, k + 1);
      }
      forall k | DifferAt(a, b, k) && k > 0
        ensures a[0] == b[0] && DifferAt(a[1..], b[1..], k - 1)
      {
        assert a[..k][0] == a[0] && b[..k][0] == b[0];
        assert a[1..][..k - 1] == a[..k][1..] && b[1..][..k - 1] == b[..k][1..];
      }
    }
  }

  ghost predicate Ascending(items: seq<Item>) {
    forall i, j :: 0 <= i < j < |items| ==> Before(items[i], items[j])
  }

  ghost predicate DistinctIds(items: seq<Item>) {
    forall i, j :: 0 <= i < j < |items| ==> items[i].itemId != items[j].itemId
  }

  // ---------- Sorting ----------

  function Insert(x: Item, items: seq<Item>): (r: seq<Item>)
    ensures |r| == |items| + 1
  {
    if items == [] || Before(x, items[0]) then [x] + items else [items[0]] + Insert(x, items[1..])
  }

  function Sorted(items: seq<Item>): (r: seq<Item>)
    ensures |r| == |items|
  {
    if items == [] then [] else Insert(items[0], Sorted(items[1..]))
  }

  lemma {:induction false} InsertKeeps(x: Item, items: seq<Item>)
    requires Ascending(items) && forall i :: 0 <= i < |items| ==> items[i].itemId != x.itemId
    ensures var r := Insert(x, items);
            && |r| == |items| + 1 && Ascending(r)
            && forall y :: y in r <==> y == x || y in items
  {
    hide Before;
    if items == [] || Before(x, items[0]) {
      forall i | 0 <= i < |items|
        ensures Before(x, items[i])
      {
        BeforeOrder(x, items[0], items[i]);
      }
    } else {
      InsertKeeps(x, items[1..]);
      BeforeOrder(x, items[0], x);
      assert items == [items[0]] + items[1..];
      var rest := Insert(x, items[1..]);
      forall i | 0 <= i < |rest|
        ensures Before(items[0], rest[i])
      {
        assert rest[i] in rest;
      }
    }
  }

  lemma {:induction false} SortedKeeps(items: seq<Item>)
    requires DistinctIds(items)
    ensures var r := Sorted(items);
            |r| == |items| && Ascending(r) && forall y :: y in r <==> y in items
  {
    hide Before, Insert;
    if items != [] {
      SortedKeeps(items[1..]);
      assert items == [items[0]] + items[1..];
      forall i | 0 <= i < |Sorted(items[1..])|
        ensures Sorted(items[1..])[i].itemId != items[0].itemId
      {
        assert Sorted(items[1..])[i] in items[1..];
      }
      InsertKeeps(items[0], Sorted(items[1..]));
    }
  }

  lemma TailMembers(items: seq<Item>)
    requires items != [] && Ascending(items)
    ensures forall y :: y in items[1..] <==> y in items && y != items[0]
  {
    hide Before;
    assert items == [items[0]] + items[1..];
    forall i | 1 <= i < |items|
      ensures items[i] != items[0]
    {
      BeforeOrder(items[0], items[i], items[0]);
    }
  }

  lemma BothEmpty(a: seq<Item>, b: seq<Item>)
    requires forall y :: y in a <==> y in b
    ensures a == [] <==> b == []
  {
    if a != [] {
      assert a[0] in b;
    }
    if b != [] {
      assert b[0] in a;
    }
  }

  /** The same items have only one ascending order, so it does not matter how they were collected or sorted. */
  lemma {:induction false} AscendingUnique(a: seq<Item>, b: seq<Item>)
    requires Ascending(a) && Ascending(b) && forall y :: y in a <==> y in b
    ensures a == b
  {
    hide Before;
    BothEmpty(a, b);
    if a != [] {
      assert a[0] in b && b[0] in a;
      BeforeOrder(a[0], b[0], a[0]);
      assert a[0] == b[0];
      TailMembers(a);
      TailMembers(b);
      AscendingUnique(a[1..], b[1..]);
    }
  }

  // ---------- The list that is paged through ----------

  function OfDataset(table: seq<Item>, datasetId: string): (r: seq<Item>)
    ensures |r| <= |table|
  {
    if table == [] then []
    else if table[0].datasetId == datasetId then [table[0]] + OfDataset(table[1..], datasetId)
    else OfDataset(table[1..], datasetId)
  }

  /** The items of a dataset in the order of pages. */
  function Listing(table: seq<Item>, datasetId: string): seq<Item> {
    Sorted(OfDataset(table, datasetId))
  }

  /** Item ids are the primary key. */
  ghost predicate ValidTable(table: seq<Item>) {
    DistinctIds(table) && forall i :: 0 <= i < |table| ==> table[i].itemId != ""
  }

  lemma {:induction false} OfDatasetMembers(table: seq<Item>, datasetId: string)
    requires DistinctIds(table)
    ensures var r := OfDataset(table, datasetId);
            DistinctIds(r) && forall y :: y in r <==> y in table && y.datasetId == datasetId
  {
    if table != [] {
      OfDatasetMembers(table[1..], datasetId);
      assert table == [table[0]] + table[1..];
      var rest := OfDataset(table[1..], datasetId);
      forall i | 0 <= i < |rest|
        ensures rest[i].itemId != table[0].itemId
      {
        assert rest[i] in table[1..];
      }
    }
  }

  lemma ListingIs(table: seq<Item>, datasetId: string)
    requires DistinctIds(table)
    ensures var items := Listing(table, datasetId);
            Ascending(items) && forall y :: y in items <==> y in table && y.datasetId == datasetId
    ensures |Listing(table, datasetId)| == |OfDataset(table, datasetId)|
  {
    hide OfDataset, Sorted, Before;
    OfDatasetMembers(table, datasetId);
    SortedKeeps(OfDataset(table, datasetId));
  }

  /** Tables that hold the same items list them alike, whatever the order of iteration. */
  lemma ListingIgnoresOrder(table: seq<Item>, other: seq<Item>, datasetId: string)
    requires DistinctIds(table) && DistinctIds(other) && forall y :: y in table <==> y in other
    ensures Listing(table, datasetId) == Listing(other, datasetId)
  {
    hide OfDataset, Sorted, Before;
    ListingIs(table, datasetId);
    ListingIs(other, datasetId);
    AscendingUnique(Listing(table, datasetId), Listing(other, datasetId));
  }

  // ---------- Pages ----------

  datatype Page = Page(items: seq<Item>, next: string)

  /** The page of at most `limit` items from position `start`; `next` is empty on the last page. */
  function PageAt(items: seq<Item>, start: nat, limit: nat): Page
    requires limit > 0
  {
    if start >= |items| then Page([], "")
    else if start + limit < |items| then Page(items[start..start + limit], items[start + limit - 1].itemId)
    else Page(items[start..], "")
  }

  // ---------- The fake store ----------

  /** The position after the item named by the cursor; 0 when there is none. */
  function PositionAfter(items: seq<Item>, cursor: string): (p: nat)
    ensures p <= |items|
    ensures p > 0 ==> items[p - 1].itemId == cursor
    ensures p == 0 ==> forall k :: 0 <= k < |items| ==> items[k].itemId != cursor
  {
    if items == [] then 0
    else if items[0].itemId == cursor then 1
    else
      var p := PositionAfter(items[1..], cursor);
      assert items == [items[0]] + items[1..];
      if p == 0 then 0 else p + 1
  }

  datatype Result<+T> = Success(value: T) | Panic | Failure

  /** The fake store's `ListDatasetItemsPaginated`; slicing out of range panics. */
  method FakePage(table: seq<Item>, datasetId: string, cursor: string, limit: int) returns (r: Result<Page>)
    requires IsInt64(limit) && |table| < TWO63
    ensures var items := Listing(table, datasetId);
            var start := if cursor == "" then 0 else PositionAfter(items, cursor);
            r == if start < |items| && (limit <= 0 || start + limit >= TWO63) then Panic
                 else if start >= |items| then Success(Page([], ""))
                 else Success(PageAt(items, start, limit))
  {
    hide *;
    var items := Collect(table, datasetId);
    items := Sorted(items);
    ListingIsSorted(table, datasetId);
    var start := 0;
    if cursor != "" {
      start := FindStart(items, cursor);
    }
    if start >= |items| {
      return Success(Page([], ""));
    }
    r := SliceFrom(items, start, limit);
  }

  lemma ListingIsSorted(table: seq<Item>, datasetId: string)
    ensures Listing(table, datasetId) == Sorted(OfDataset(table, datasetId))
  {
  }

  /** The loop that skips past the cursor. */
  method FindStart(items: seq<Item>, cursor: string) returns (start: nat)
    ensures start == PositionAfter(items, cursor)
  {
    start := 0;
    for i := 0 to |items|
      invariant start == 0 && forall k :: 0 <= k < i ==> items[k].itemId != cursor
    {
      if items[i].itemId == cursor {
        start := i + 1;
        PositionIs(items, cursor, start);
        break;
      }
    }
  }

  /** Slicing the page; an end before the start, or a last item of an empty page, panics. */
  method SliceFrom(items: seq<Item>, start: nat, limit: int) returns (r: Result<Page>)
    requires IsInt64(limit) && start < |items| < TWO63
    ensures r == if limit <= 0 || start + limit >= TWO63 then Panic else Success(PageAt(items, start, limit))
  {
    hide Wrap64;
    var end := Wrap64(start + limit);
    if end > |items| {
      end := |items|;
    }
    if end < start {
      return Panic;
    }
    var page := items[start..end];
    var next := "";
    if |page| == limit && end < |items| {
      if page == [] {
        return Panic;
      }
      next := page[|page| - 1].itemId;
    }
    if start + limit < |items| {
      assert page == items[start..start + limit] && next == items[start + limit - 1].itemId;
    } else {
      assert page == items[start..] && next == "";
    }
    return Success(Page(page, next));
  }

  method Collect(table: seq<Item>, datasetId: string) returns (items: seq<Item>)
    ensures items == OfDataset(table, datasetId)
  {
    items := [];
    for i := 0 to |table|
      invariant items == OfDataset(table[..i], datasetId)
    {
      OfDatasetLast(table[..i], table[i], datasetId);
      assert table[..i + 1] == table[..i] + [table[i]];
      if table[i].datasetId == datasetId {
        items := items + [table[i]];
      }
    }
    assert table[..|table|] == table;
  }

  lemma {:induction false} OfDatasetLast(table: seq<Item>, item: Item, datasetId: string)
    ensures OfDataset(table + [item], datasetId) ==
              OfDataset(table, datasetId) + if item.datasetId == datasetId then [item] else []
  {
    if table == [] {
      assert table + [item] == [item];
    } else {
      assert (table + [item])[1..] == table[1..] + [item];
      OfDatasetLast(table[1..], item, datasetId);
    }
  }

  lemma {:induction false} PositionIs(items: seq<Item>, cursor: string, p: nat)
    requires 0 < p <= |items| && items[p - 1].itemId == cursor
    requires forall k :: 0 <= k < p - 1 ==> items[k].itemId != cursor
    ensures PositionAfter(items, cursor) == p
  {
    if p > 1 {
      PositionIs(items[1..], cursor, p - 1);
    }
  }

  // ---------- The SQL stores ----------

  datatype Dialect = Sqlite | Postgres

  function Find(table: seq<Item>, itemId: string): Option<Item> {
    if table == [] then None
    else if table[0].itemId == itemId then Some(table[0])
    else Find(table[1..], itemId)
  }

  /** The items whose key is greater than that of `key`. */
  function After(items: seq<Item>, key: Item): seq<Item> {
    if items == [] then []
    else if Before(key, items[0]) then [items[0]] + After(items[1..], key)
    else After(items[1..], key)
  }

  /** The rows the query selects, before its LIMIT; comparing with the key of an unknown item selects none. */
  function SqlRows(table: seq<Item>, datasetId: string, cursor: string): seq<Item> {
    var items := Listing(table, datasetId);
    if cursor == "" then items
    else match Find(table, cursor)
      case None => []
      case Some(c) => After(items, c)
  }

  const DEFAULT_LIMIT := 50

  /** The SQL stores' `ListDatasetItemsPaginated`. A negative LIMIT means none in SQLite and is an error in Postgres. */
  method SqlPage(table: seq<Item>, datasetId: string, cursor: string, limit: int, dialect: Dialect)
    returns (r: Result<Page>)
    requires IsInt64(limit) && |table| < TWO63
    ensures var size := if limit <= 0 then 50 else limit;
            r == if size == TWO63 - 1 && dialect.Postgres? then Failure
                 else Success(PageAt(SqlRows(table, datasetId, cursor), 0, size))
  {
    hide Listing, Find, After;
    var size := if limit <= 0 then DEFAULT_LIMIT else limit;
    var rows := SqlRows(table, datasetId, cursor);
    RowsFit(table, datasetId, cursor);
    var probe := Wrap64(size + 1);
    if probe < 0 && dialect.Postgres? {
      return Failure;
    }
    if 0 <= probe < |rows| {
      rows := rows[..probe];
    }
    var items := [];
    for i := 0 to |rows|
      invariant items == rows[..i]
    {
      items := items + [rows[i]];
    }
    var hasNext := false;
    if |items| > size {
      hasNext := true;
      items := items[..size];
    }
    var next := "";
    if hasNext && |items| > 0 {
      next := items[|items| - 1].itemId;
    }
    assert Page(items, next) == PageAt(SqlRows(table, datasetId, cursor), 0, size);
    return Success(Page(items, next));
  }

  lemma {:induction false} AfterFits(items: seq<Item>, key: Item)
    ensures |After(items, key)| <= |items|
  {
    hide Before;
    if items != [] {
      AfterFits(items[1..], key);
    }
  }

  lemma RowsFit(table: seq<Item>, datasetId: string, cursor: string)
    ensures |SqlRows(table, datasetId, cursor)| <= |table|
  {
    hide Sorted, OfDataset, Find, After;
    match Find(table, cursor)
    case None =>
    case Some(c) => AfterFits(Listing(table, datasetId), c);
  }

  // ---------- Positions and keys agree ----------

  /** In ascending order the greater keys are exactly those after the first greater one. */
  lemma {:induction false} AfterIsSuffix(items: seq<Item>, key: Item, p: nat)
    requires Ascending(items) && p <= |items|
    requires p > 0 ==> !Before(key, items[p - 1])
    requires p < |items| ==> Before(key, items[p])
    ensures After(items, key) == items[p..]
  {
    hide Before;
    if items != [] {
      if p == 0 {
        AllAfter(items, key);
      } else {
        BeforeOrder(key, items[0], items[p - 1]);
        assert !Before(key, items[0]);
        AfterIsSuffix(items[1..], key, p - 1);
      }
    }
  }

  lemma {:induction false} AllAfter(items: seq<Item>, key: Item)
    requires Ascending(items) && (items != [] ==> Before(key, items[0]))
    ensures After(items, key) == items
  {
    hide Before;
    if items != [] {
      if |items| > 1 {
        BeforeOrder(key, items[0], items[1]);
      }
      AllAfter(items[1..], key);
      assert items == [items[0]] + items[1..];
    }
  }

  lemma {:induction false} FindIs(table: seq<Item>, c: Item)
    requires DistinctIds(table) && c in table
    ensures Find(table, c.itemId) == Some(c)
  {
    assert table == [table[0]] + table[1..];
    if table[0] != c {
      FindIs(table[1..], c);
    }
  }

  lemma {:induction false} FoundIsMember(table: seq<Item>, itemId: string)
    ensures Find(table, itemId).Some? ==>
              Find(table, itemId).value in table && Find(table, itemId).value.itemId == itemId
  {
    if table != [] {
      FoundIsMember(table[1..], itemId);
    }
  }

  /** The rows after the item at position `p - 1` of the listing are the listing from `p` on. */
  lemma RowsAfterMember(table: seq<Item>, datasetId: string, p: nat)
    requires ValidTable(table) && 0 < p <= |Listing(table, datasetId)|
    ensures var items := Listing(table, datasetId);
            SqlRows(table, datasetId, items[p - 1].itemId) == items[p..]
  {
    hide Sorted, OfDataset, Before;
    var items := Listing(table, datasetId);
    ListingIs(table, datasetId);
    var c := items[p - 1];
    assert c in items;
    FindIs(table, c);
    BeforeOrder(c, c, c);
    AfterIsSuffix(items, c, p);
  }

  datatype Store = Fake | Sql

  /** The page a store answers for a positive limit that does not overflow. */
  function PageOf(store: Store, table: seq<Item>, datasetId: string, cursor: string, limit: nat): Page
    requires limit > 0
  {
    var items := Listing(table, datasetId);
    match store
    case Fake => PageAt(items, if cursor == "" then 0 else PositionAfter(items, cursor), limit)
    case Sql => PageAt(SqlRows(table, datasetId, cursor), 0, limit)
  }

  lemma PageShift(items: seq<Item>, start: nat, limit: nat)
    requires limit > 0 && start <= |items|
    ensures PageAt(items[start..], 0, limit) == PageAt(items, start, limit)
  {
    if start + limit < |items| {
      assert items[start..][..limit] == items[start..start + limit];
      assert items[start..][limit - 1] == items[start + limit - 1];
    }
  }

  predicate IsMember(table: seq<Item>, datasetId: string, cursor: string) {
    Find(table, cursor).Some? && Find(table, cursor).value.datasetId == datasetId
  }

  lemma PositionOfMember(table: seq<Item>, datasetId: string, cursor: string)
    requires ValidTable(table)
    ensures PositionAfter(Listing(table, datasetId), cursor) > 0 <==> IsMember(table, datasetId, cursor)
  {
    hide Sorted, OfDataset, Before, Find;
    var items := Listing(table, datasetId);
    ListingIs(table, datasetId);
    FoundIsMember(table, cursor);
    var p := PositionAfter(items, cursor);
    if p > 0 {
      assert items[p - 1] in items;
      FindIs(table, items[p - 1]);
    }
    assert IsMember(table, datasetId, cursor) ==> Find(table, cursor).value in items;
  }

  /** For every cursor that a page of the dataset can have given out, position and key select the same page. */
  lemma MemberCursorsAgree(table: seq<Item>, datasetId: string, cursor: string, limit: nat)
    requires ValidTable(table) && limit > 0
    requires cursor == "" || IsMember(table, datasetId, cursor)
    ensures PageOf(Fake, table, datasetId, cursor, limit) == PageOf(Sql, table, datasetId, cursor, limit)
  {
    hide Sorted, OfDataset, Before, Find, Listing, IsMember, ValidTable, SqlRows, PageAt, PositionAfter;
    var items := Listing(table, datasetId);
    if cursor == "" {
      EmptyCursorRows(table, datasetId);
    } else {
      PositionOfMember(table, datasetId, cursor);
      var p := PositionAfter(items, cursor);
      RowsAfterMember(table, datasetId, p);
      PageShift(items, p, limit);
    }
  }

  lemma EmptyCursorRows(table: seq<Item>, datasetId: string)
    ensures SqlRows(table, datasetId, "") == Listing(table, datasetId)
  {
  }

  /** For any other cursor they agree exactly when the dataset is empty or the cursor's item precedes all of it. */
  lemma OtherCursorsAgreeIff(table: seq<Item>, datasetId: string, cursor: string, limit: nat)
    requires ValidTable(table) && limit > 0
    requires cursor != "" && !IsMember(table, datasetId, cursor)
    ensures var items := Listing(table, datasetId);
            PageOf(Fake, table, datasetId, cursor, limit) == PageOf(Sql, table, datasetId, cursor, limit) <==>
              items == [] || (Find(table, cursor).Some? && Before(Find(table, cursor).value, items[0]))
  {
    hide Sorted, OfDataset, Before, Find, Listing, IsMember;
    var items := Listing(table, datasetId);
    ListingIs(table, datasetId);
    PositionOfMember(table, datasetId, cursor);
    if items != [] && Find(table, cursor).Some? {
      var c := Find(table, cursor).value;
      if Before(c, items[0]) {
        AllAfter(items, c);
      } else {
        AfterStartsLater(items, c);
      }
    }
  }

  lemma {:induction false} AfterMembers(items: seq<Item>, key: Item)
    ensures forall k :: 0 <= k < |After(items, key)| ==> Before(key, After(items, key)[k])
  {
    hide Before;
    if items != [] {
      AfterMembers(items[1..], key);
    }
  }

  lemma AfterStartsLater(items: seq<Item>, key: Item)
    requires items != [] && !Before(key, items[0])
    ensures After(items, key) == [] || After(items, key)[0] != items[0]
  {
    hide Before, After;
    AfterMembers(items, key);
  }

  // ---------- Following cursors ----------

  /** `pages` is what a client gets that starts at `cursor` and follows `next` until it is empty. */
  ghost predicate IsWalk(store: Store, table: seq<Item>, datasetId: string, limit: nat, cursor: string,
                         pages: seq<Page>)
    requires limit > 0
    decreases |pages|
  {
    && pages != []
    && pages[0] == PageOf(store, table, datasetId, cursor, limit)
    && if pages[0].next == "" then |pages| == 1
       else IsWalk(store, table, datasetId, limit, pages[0].next, pages[1..])
  }

  function AllItems(pages: seq<Page>): seq<Item> {
    if pages == [] then [] else pages[0].items + AllItems(pages[1..])
  }

  /** The cursor that has `start` items of the listing behind it. */
  ghost predicate CursorAt(table: seq<Item>, datasetId: string, cursor: string, start: nat) {
    var items := Listing(table, datasetId);
    && start <= |items|
    && cursor == if start == 0 then "" else items[start - 1].itemId
  }

  lemma PageOfCursor(store: Store, table: seq<Item>, datasetId: string, limit: nat, cursor: string, start: nat)
    requires ValidTable(table) && limit > 0 && CursorAt(table, datasetId, cursor, start)
    ensures PageOf(store, table, datasetId, cursor, limit) == PageAt(Listing(table, datasetId), start, limit)
    ensures var items := Listing(table, datasetId);
            start + limit < |items| ==>
              items[start + limit - 1].itemId != "" &&
              CursorAt(table, datasetId, items[start + limit - 1].itemId, start + limit)
  {
    hide Sorted, OfDataset, Before, Find, PositionAfter, PageAt, SqlRows, ValidTable;
    var items := Listing(table, datasetId);
    ListedIdsNotEmpty(table, datasetId);
    if start == 0 {
      EmptyCursorRows(table, datasetId);
    } else {
      RowsAfterMember(table, datasetId, start);
      PageShift(items, start, limit);
      ListedIsMember(table, datasetId, start - 1);
      MemberCursorsAgree(table, datasetId, cursor, limit);
    }
  }

  lemma ListedIdsNotEmpty(table: seq<Item>, datasetId: string)
    requires ValidTable(table)
    ensures forall k :: 0 <= k < |Listing(table, datasetId)| ==> Listing(table, datasetId)[k].itemId != ""
  {
    hide Listing, Before;
    ListingIs(table, datasetId);
    var items := Listing(table, datasetId);
    forall k | 0 <= k < |items|
      ensures items[k].itemId != ""
    {
      assert items[k] in items;
    }
  }

  lemma ListedIsMember(table: seq<Item>, datasetId: string, k: nat)
    requires ValidTable(table) && k < |Listing(table, datasetId)|
    ensures IsMember(table, datasetId, Listing(table, datasetId)[k].itemId)
  {
    hide Listing, Before, Find;
    ListingIs(table, datasetId);
    var c := Listing(table, datasetId)[k];
    assert c in Listing(table, datasetId);
    FindIs(table, c);
  }

  /** A walk from the empty cursor yields every item once, in order, on ceiling(n / limit) pages when there are any. */
  lemma WalkVisitsAll(store: Store, table: seq<Item>, datasetId: string, limit: nat, pages: seq<Page>)
    requires ValidTable(table) && limit > 0
    requires IsWalk(store, table, datasetId, limit, "", pages)
    ensures var items := Listing(table, datasetId);
            && AllItems(pages) == items && Ascending(items)
            && (forall y :: y in items <==> y in table && y.datasetId == datasetId)
            && (items == [] ==> |pages| == 1)
            && (items != [] ==> (|pages| - 1) * limit < |items| <= |pages| * limit)
  {
    hide Listing, PageOf, IsWalk, AllItems;
    ListingIs(table, datasetId);
    WalkFrom(store, table, datasetId, limit, "", 0, pages);
    assert Listing(table, datasetId)[0..] == Listing(table, datasetId);
  }

  /** One page if nothing is left, else the ceiling of `rest / limit`. */
  ghost predicate EnoughPages(rest: nat, limit: nat, count: nat) {
    && (rest == 0 ==> count == 1)
    && (rest > 0 ==> (count - 1) * limit < rest <= count * limit)
  }

  lemma LastPage(rest: nat, limit: nat)
    requires rest <= limit && limit > 0
    ensures EnoughPages(rest, limit, 1)
  {
  }

  lemma OneMorePage(rest: nat, limit: nat, count: nat)
    requires rest > limit > 0 && EnoughPages(rest - limit, limit, count)
    ensures EnoughPages(rest, limit, count + 1)
  {
    assert (count + 1) * limit == count * limit + limit && count * limit == (count - 1) * limit + limit;
  }

  /** What the first page of a walk is, and what follows it. */
  lemma FirstPage(store: Store, table: seq<Item>, datasetId: string, limit: nat, cursor: string, start: nat,
                  pages: seq<Page>)
    requires ValidTable(table) && limit > 0 && CursorAt(table, datasetId, cursor, start)
    requires IsWalk(store, table, datasetId, limit, cursor, pages)
    ensures var items := Listing(table, datasetId);
            && start <= |items| && pages != []
            && if start + limit < |items| then
                 && pages[0].items == items[start..start + limit]
                 && CursorAt(table, datasetId, pages[0].next, start + limit)
                 && IsWalk(store, table, datasetId, limit, pages[0].next, pages[1..])
               else pages[0].items == items[start..] && |pages| == 1
  {
    hide Listing, PageOf, ValidTable;
    PageOfCursor(store, table, datasetId, limit, cursor, start);
  }

  lemma {:induction false} WalkFrom(store: Store, table: seq<Item>, datasetId: string, limit: nat, cursor: string,
                                    start: nat, pages: seq<Page>)
    requires ValidTable(table) && limit > 0 && CursorAt(table, datasetId, cursor, start)
    requires IsWalk(store, table, datasetId, limit, cursor, pages)
    ensures start <= |Listing(table, datasetId)|
    ensures AllItems(pages) == Listing(table, datasetId)[start..]
    ensures EnoughPages(|Listing(table, datasetId)| - start, limit, |pages|)
    decreases |pages|
  {
    hide *;
    var items := Listing(table, datasetId);
    FirstPage(store, table, datasetId, limit, cursor, start, pages);
    ItemsOfFirst(pages);
    if start + limit < |items| {
      WalkFrom(store, table, datasetId, limit, pages[0].next, start + limit, pages[1..]);
      assert items[start..] == items[start..start + limit] + items[start + limit..];
      OneMorePage(|items| - start, limit, |pages[1..]|);
    } else {
      assert pages[1..] == [];
      LastPage(|items| - start, limit);
    }
  }

  lemma ItemsOfFirst(pages: seq<Page>)
    requires pages != []
    ensures AllItems(pages) == pages[0].items + AllItems(pages[1..])
    ensures pages[1..] == [] ==> AllItems(pages) == pages[0].items
  {
  }

  /** Such a walk always comes to an end. */
  lemma WalkEnds(store: Store, table: seq<Item>, datasetId: string, limit: nat, cursor: string, start: nat)
    returns (pages: seq<Page>)
    requires ValidTable(table) && limit > 0 && CursorAt(table, datasetId, cursor, start)
    ensures IsWalk(store, table, datasetId, limit, cursor, pages)
    decreases |Listing(table, datasetId)| - start
  {
    hide Listing, PageOf, ValidTable;
    var items := Listing(table, datasetId);
    PageOfCursor(store, table, datasetId, limit, cursor, start);
    var page := PageOf(store, table, datasetId, cursor, limit);
    if start + limit < |items| {
      var rest := WalkEnds(store, table, datasetId, limit, page.next, start + limit);
      pages := [page] + rest;
    } else {
      pages := [page];
    }
  }
}
