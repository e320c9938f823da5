/** Pages of a sorted list, and the page numbers that go with them. */
module Pages {
  import opened Wrappers
  import opened Domain
  import opened Sorting

  // ------------------------------------------------------------------ offsets

  const INT64_SPAN: int := 0x1_0000_0000_0000_0000
  const INT64_MAX: int := 0x7fff_ffff_ffff_ffff

  /** The 64-bit value that Go's `int` holds for an exact result. */
  function Wrapped(x: int): (y: int)
    ensures -INT64_MAX - 1 <= y <= INT64_MAX
    ensures -INT64_MAX - 1 <= x <= INT64_MAX ==> y == x
  {
    (x + INT64_MAX + 1) % INT64_SPAN - INT64_MAX - 1
  }

  function Min(a: int, b: int): int {
    if a < b then a else b
  }

  function Defaulted(page: Pagination): (p: Pagination)
    ensures p.page > 0 && p.pageSize > 0
    ensures page.page > 0 ==> p.page == page.page
    ensures page.page <= 0 ==> p.page == 1
    ensures page.pageSize > 0 ==> p.pageSize == page.pageSize
    ensures page.pageSize <= 0 ==> p.pageSize == 20
  {
    Pagination(if page.page <= 0 then 1 else page.page, if page.pageSize <= 0 then 20 else page.pageSize)
  }

  function RangeFromPage(total: nat, page: Pagination): (int, int) {
    var p := Defaulted(page);
    var start := Wrapped((p.page - 1) * p.pageSize);
    var end := Wrapped(start + p.pageSize);
    (start, if end > total then total else end)
  }

  /** The page of a list, or nothing when the slice bounds are out of range. */
  function Paginate<T>(items: seq<T>, page: Pagination): Option<seq<T>> {
    var (start, end) := RangeFromPage(|items|, page);
    if start >= |items| then Some([])
    else if 0 <= start <= end then Some(items[start..end])
    else None
  }

  /** The end of the page still fits a 64-bit integer. */
  predicate Fits(page: Pagination) {
    var p := Defaulted(page);
    p.page * p.pageSize <= INT64_MAX
  }

  lemma OffsetsOfFitting(total: nat, page: Pagination)
    requires Fits(page)
    ensures var p := Defaulted(page);
      && 0 <= (p.page - 1) * p.pageSize < p.page * p.pageSize
      && RangeFromPage(total, page) ==
        ((p.page - 1) * p.pageSize, if p.page * p.pageSize > total then total else p.page * p.pageSize)
  {
    var p := Defaulted(page);
    assert (p.page - 1) * p.pageSize + p.pageSize == p.page * p.pageSize;
    assert (p.page - 1) * p.pageSize >= 0;
  }

  /** The offset is the one that was meant exactly when it fits. */
  lemma OffsetExactIff(total: nat, page: Pagination)
    ensures var p := Defaulted(page);
      RangeFromPage(total, page).0 == (p.page - 1) * p.pageSize <==> (p.page - 1) * p.pageSize <= INT64_MAX
  {
    hide Wrapped, Defaulted;
    var p := Defaulted(page);
    OffsetIsNat(p.page - 1, p.pageSize);
    WrappedExactIff((p.page - 1) * p.pageSize);
  }

  lemma WrappedExactIff(x: nat)
    ensures Wrapped(x) == x <==> x <= INT64_MAX
  {
  }

  /** The offset that a page number and a page size mean. */
  function Offset(page: Pagination): (offset: nat) {
    var p := Defaulted(page);
    OffsetIsNat(p.page - 1, p.pageSize);
    (p.page - 1) * p.pageSize
  }

  lemma OffsetIsNat(a: int, b: int)
    requires a >= 0 && b > 0
    ensures a * b >= 0
  {
  }

  /** The rows that a page number and a page size mean. */
  function Intended<T>(items: seq<T>, page: Pagination): seq<T> {
    var start := Offset(page);
    if start >= |items| then [] else items[start..Min(start + Defaulted(page).pageSize, |items|)]
  }

  /** What `int` keeps of an offset that is not negative. */
  lemma WrappedOffset(x: nat)
    ensures var low := x % INT64_SPAN;
      Wrapped(x) == if low <= INT64_MAX then low else low - INT64_SPAN
    ensures x < INT64_SPAN ==> x % INT64_SPAN == x
  {
  }

  /** The slice bounds are out of range: the remainder of the offset modulo 2^64 is negative as an `int`, or
      the end of the page is. */
  predicate Panics(total: nat, page: Pagination) {
    var low := Offset(page) % INT64_SPAN;
    low > INT64_MAX || (low < total && low + Defaulted(page).pageSize > INT64_MAX)
  }

  /** The offset lies past the list, but its remainder modulo 2^64 lies within it. */
  predicate ShowsOtherRows(total: nat, page: Pagination) {
    Offset(page) % INT64_SPAN < total <= Offset(page) && !Panics(total, page)
  }

  /** The three outcomes of a page, for every page number and page size of 64 bits: the program panics, or
      lists rows from inside the list where the intended page is empty, or lists the intended rows. */
  lemma PageOutcome<T>(items: seq<T>, page: Pagination)
    requires |items| <= INT64_MAX && page.pageSize <= INT64_MAX
    ensures Paginate(items, page).None? <==> Panics(|items|, page)
    ensures Paginate(items, page) == Some(Intended(items, page))
      <==> !Panics(|items|, page) && !ShowsOtherRows(|items|, page)
    ensures ShowsOtherRows(|items|, page) ==>
      var low := Offset(page) % INT64_SPAN;
      && Paginate(items, page) == Some(items[low..Min(low + Defaulted(page).pageSize, |items|)])
      && Paginate(items, page).value != [] && Intended(items, page) == []
  {
    var e, size := Offset(page), Defaulted(page).pageSize;
    var low := e % INT64_SPAN;
    WrappedOffset(e);
    if low <= INT64_MAX { WrappedOffset(low + size); }
    hide Wrapped, Offset;
    assert RangeFromPage(|items|, page).0 == Wrapped(e) by { SameOffset(|items|, page); }
  }

  lemma SameOffset(total: nat, page: Pagination)
    ensures RangeFromPage(total, page).0 == Wrapped(Offset(page))
  {
  }

  /** A page number whose offset turns negative, so that the program panics. */
  lemma OffsetCanWrap()
    ensures var page := Pagination(0x800_0000_0000_0001, 16);
      && ReadPage(page.page, page.pageSize) == page && !Fits(page)
      && RangeFromPage(5, page).0 == -INT64_MAX - 1
      && Paginate([1, 2, 3, 4, 5], page) == None
  {
  }

  /** A page number past the last whose offset turns zero, so that it shows the rows of the first page. */
  lemma LargePageShowsFirstRows()
    ensures var page, items := Pagination(0x1000_0000_0000_0001, 16), [1, 2, 3, 4, 5];
      && ReadPage(page.page, page.pageSize) == page
      && BuildPaginationMeta(5, page).totalPages == 1
      && Paginate(items, page) == Some(items)
  {
    var items := [1, 2, 3, 4, 5];
    assert items[0..5] == items;
  }

  /** A page that fits is always a slice of the list. */
  function PageOf<T>(items: seq<T>, page: Pagination): seq<T>
    requires Fits(page)
  {
    OffsetsOfFitting(|items|, page);
    Paginate(items, page).value
  }

  // ------------------------------------------------------------------ the HTTP side

  datatype PageMeta = PageMeta(page: int, pageSize: int, total: nat, totalPages: nat, hasNext: bool, hasPrev: bool)

  /** The page that a request asks for: at most 100 rows, and defaults for what is not positive. */
  function ReadPage(page: int, pageSize: int): (p: Pagination)
    ensures p.page >= 1 && 1 <= p.pageSize <= 100
    ensures Defaulted(p) == p
    ensures page >= 1 ==> p.page == page
    ensures page <= 0 ==> p.page == 1
    ensures 1 <= pageSize <= 100 ==> p.pageSize == pageSize
    ensures pageSize <= 0 ==> p.pageSize == 20
    ensures pageSize > 100 ==> p.pageSize == 100
  {
    var capped := if pageSize > 100 then 100 else pageSize;
    Pagination(if page <= 0 then 1 else page, if capped <= 0 then 20 else capped)
  }

  function BuildPaginationMeta(total: nat, page: Pagination): PageMeta
    requires page.pageSize > 0
  {
    var totalPages: nat := if total > 0 then (total + page.pageSize - 1) / page.pageSize else 0;
    PageMeta(page.page, page.pageSize, total, totalPages, totalPages > 0 && page.page < totalPages, page.page > 1)
  }

  // ------------------------------------------------------------------ the pages partition the list

  function FirstPages<T>(items: seq<T>, pageSize: int, count: nat): seq<T>
    requires 0 < pageSize && count * pageSize <= INT64_MAX
  {
    if count == 0 then [] else
      OneLess(count, pageSize);
      FirstPages(items, pageSize, count - 1) + PageOf(items, Pagination(count, pageSize))
  }

  lemma OneLess(count: int, pageSize: int)
    ensures (count - 1) * pageSize == count * pageSize - pageSize
  {
  }

  lemma PageSlice<T>(items: seq<T>, page: int, pageSize: int)
    requires 0 < page && 0 < pageSize && page * pageSize <= INT64_MAX
    ensures 0 <= (page - 1) * pageSize <= page * pageSize
    ensures PageOf(items, Pagination(page, pageSize))
      == items[Min((page - 1) * pageSize, |items|)..Min(page * pageSize, |items|)]
  {
    OffsetsOfFitting(|items|, Pagination(page, pageSize));
  }

  lemma {:induction false} PagesArePrefix<T>(items: seq<T>, pageSize: int, count: nat)
    requires 0 < pageSize && count * pageSize <= INT64_MAX
    ensures 0 <= count * pageSize
    ensures FirstPages(items, pageSize, count) == items[..Min(count * pageSize, |items|)]
  {
    if count > 0 {
      OneLess(count, pageSize);
      PagesArePrefix(items, pageSize, count - 1);
      PageSlice(items, count, pageSize);
      var a, b := Min((count - 1) * pageSize, |items|), Min(count * pageSize, |items|);
      assert items[..a] + items[a..b] == items[..b];
    }
  }

  lemma TotalPagesCover(total: nat, page: Pagination)
    requires page.pageSize > 0
    ensures var n := BuildPaginationMeta(total, page).totalPages;
      n * page.pageSize >= total && (n > 0 ==> (n - 1) * page.pageSize < total)
  {
  }

  /** Pages 1 to `total_pages` together are the whole list, in order and once each. */
  lemma PagesPartition<T>(items: seq<T>, pageSize: int)
    requires 0 < pageSize && |items| + pageSize <= INT64_MAX
    ensures var n := BuildPaginationMeta(|items|, Pagination(1, pageSize)).totalPages;
      n * pageSize <= INT64_MAX && FirstPages(items, pageSize, n) == items
  {
    var n := BuildPaginationMeta(|items|, Pagination(1, pageSize)).totalPages;
    TotalPagesCover(|items|, Pagination(1, pageSize));
    OneLess(n, pageSize);
    PagesArePrefix(items, pageSize, n);
    assert items[..|items|] == items;
  }

  lemma Monotone(a: int, b: int, size: int)
    requires a <= b && size >= 0
    ensures a * size <= b * size
  {
  }

  /** The offset lies within the list exactly for the pages up to the last. */
  lemma OffsetWithinIff(total: nat, page: Pagination)
    requires page.page >= 1 && page.pageSize >= 1
    ensures Offset(page) < total <==> page.page <= BuildPaginationMeta(total, page).totalPages
  {
    var n := BuildPaginationMeta(total, page).totalPages;
    TotalPagesCover(total, page);
    hide BuildPaginationMeta;
    if page.page > n {
      Monotone(n, page.page - 1, page.pageSize);
    } else {
      Monotone(page.page - 1, n - 1, page.pageSize);
    }
  }

  /** Up to the last page no page is empty.  A page past the last is empty exactly when the remainder of
      its offset modulo 2^64 lies past the list and is not negative as an `int`. */
  lemma PageEmptyIffPast<T>(items: seq<T>, page: Pagination)
    requires page.page >= 1 && page.pageSize >= 1 && |items| + page.pageSize <= INT64_MAX
    ensures var n, low := BuildPaginationMeta(|items|, page).totalPages, Offset(page) % INT64_SPAN;
      && (page.page <= n ==> Paginate(items, page).Some? && Paginate(items, page).value != [])
      && (page.page > n ==> (Paginate(items, page) == Some([]) <==> |items| <= low <= INT64_MAX))
  {
    PageOutcome(items, page);
    OffsetWithinIff(|items|, page);
    WrappedOffset(Offset(page));
    hide Offset, BuildPaginationMeta, Paginate, Wrapped;
  }

  /** `has_next` is right about the next page, that it has rows or not, exactly unless that page shows other
      rows. */
  lemma HasNextIffMore<T>(items: seq<T>, page: Pagination)
    requires page.page >= 1 && page.pageSize >= 1 && |items| + page.pageSize <= INT64_MAX
    ensures var next := page.(page := page.page + 1);
      var hasNext := BuildPaginationMeta(|items|, page).hasNext;
      var hasRows := Paginate(items, next).Some? && Paginate(items, next).value != [];
      && (hasNext ==> hasRows)
      && ((hasNext <==> hasRows) <==> !(Offset(next) % INT64_SPAN < |items| <= Offset(next)))
  {
    var next := page.(page := page.page + 1);
    PageOutcome(items, next);
    OffsetWithinIff(|items|, next);
    WrappedOffset(Offset(next));
    hide Offset, Paginate, Wrapped;
  }

  /** The page numbers repeat what was asked and counted, and `has_prev` is true exactly when rows lie before the
      page's offset. */
  lemma HasPrevIffBefore(total: nat, page: Pagination)
    requires page.page >= 1 && page.pageSize >= 1
    ensures var meta := BuildPaginationMeta(total, page);
      && meta.page == page.page && meta.pageSize == page.pageSize && meta.total == total
      && (meta.hasPrev <==> Offset(page) > 0)
  {
    if page.page > 1 { Monotone(1, page.page - 1, page.pageSize); }
  }

  // ------------------------------------------------------------------ the listing of requests

  datatype Row = Row(id: string, httpMethod: string, path: string, contentType: string, bodySizeBytes: nat, remoteIP: string, receivedAt: int)

  function ToRow(r: CapturedRequest): Row {
    Row(r.id, r.httpMethod, r.path, r.contentType, r.bodySizeBytes, r.remoteIP, r.receivedAt)
  }

  function ToRows(rs: seq<CapturedRequest>): (rows: seq<Row>)
    ensures |rows| == |rs|
  {
    seq(|rs|, i requires 0 <= i < |rs| => ToRow(rs[i]))
  }

  function ReceivedOrder(ascending: bool): (CapturedRequest, CapturedRequest) -> bool {
    if ascending then (a: CapturedRequest, b: CapturedRequest) => a.receivedAt < b.receivedAt
    else (a: CapturedRequest, b: CapturedRequest) => a.receivedAt > b.receivedAt
  }

  /** A listing is a page of some arrangement of the matching requests by the time they were received. */
  ghost predicate IsListing(rows: seq<Row>, matches: set<CapturedRequest>, ascending: bool, page: Pagination) {
    exists sorted :: SortedBy(ReceivedOrder(ascending), sorted) && multiset(sorted) == multiset(matches)
      && Paginate(sorted, page).Some? && rows == ToRows(Paginate(sorted, page).value)
  }

  /** Rows in the order of receipt: the oldest first, or else the newest. */
  predicate InTimeOrder(rows: seq<Row>, ascending: bool) {
    forall i, j :: 0 <= i < j < |rows| ==>
      if ascending then rows[i].receivedAt <= rows[j].receivedAt else rows[i].receivedAt >= rows[j].receivedAt
  }

  /** The row has the fields of the request. */
  predicate ShowsRequest(row: Row, r: CapturedRequest) {
    && row.id == r.id && row.httpMethod == r.httpMethod && row.path == r.path && row.contentType == r.contentType
    && row.bodySizeBytes == r.bodySizeBytes && row.remoteIP == r.remoteIP && row.receivedAt == r.receivedAt
  }

  /** The row shows one of the matches. */
  ghost predicate ShowsMatch(row: Row, matches: set<CapturedRequest>) {
    exists x :: x in matches && ShowsRequest(row, x)
  }

  /** No match left out comes before a listed row. */
  ghost predicate NoneBefore(rows: seq<Row>, matches: set<CapturedRequest>, ascending: bool) {
    forall x, i :: x in matches && 0 <= i < |rows| && (forall j :: 0 <= j < |rows| ==> rows[j].id != x.id) ==>
      if ascending then rows[i].receivedAt <= x.receivedAt else rows[i].receivedAt >= x.receivedAt
  }

  lemma SortedInTime(sorted: seq<CapturedRequest>, ascending: bool)
    requires SortedBy(ReceivedOrder(ascending), sorted)
    ensures InTimeOrder(ToRows(sorted), ascending)
    ensures forall i, j :: 0 <= i < j < |sorted| ==>
      if ascending then sorted[i].receivedAt <= sorted[j].receivedAt else sorted[i].receivedAt >= sorted[j].receivedAt
  {
  }

  /** A page that is not undefined is a slice of the list, and the first page is its beginning. */
  lemma PageIsSlice<T>(items: seq<T>, page: Pagination) returns (a: nat, b: nat)
    requires Paginate(items, page).Some?
    ensures a <= b <= |items| && Paginate(items, page).value == items[a..b]
    ensures page.page <= 1 && page.pageSize <= INT64_MAX ==> a == 0
  {
    hide Wrapped;
    var (start, end) := RangeFromPage(|items|, page);
    if start >= |items| {
      a, b := |items|, |items|;
      if page.page <= 1 && page.pageSize <= INT64_MAX { a, b := 0, 0; }
    } else {
      a, b := start, end;
    }
  }

  /** The rows of a listing are in the order asked, show matches, and on page 1 no match that is left out comes
      before a listed row. */
  lemma ListingIsOrdered(rows: seq<Row>, matches: set<CapturedRequest>, ascending: bool, page: Pagination)
    requires IsListing(rows, matches, ascending, page)
    ensures InTimeOrder(rows, ascending)
    ensures forall i :: 0 <= i < |rows| ==> ShowsMatch(rows[i], matches)
    ensures page.page <= 1 && page.pageSize <= INT64_MAX ==> NoneBefore(rows, matches, ascending)
  {
    var sorted :| SortedBy(ReceivedOrder(ascending), sorted) && multiset(sorted) == multiset(matches)
      && Paginate(sorted, page).Some? && rows == ToRows(Paginate(sorted, page).value);
    hide IsListing;
    SortedInTime(sorted, ascending);
    ListOfSet(sorted, matches);
    var a, b := PageIsSlice(sorted, page);
    hide Paginate, SortedBy, ReceivedOrder, InTimeOrder, ShowsMatch, NoneBefore, ToRows;
    SliceIsOrdered(sorted, a, b, matches, ascending);
    if page.page <= 1 && page.pageSize <= INT64_MAX {
      FrontComesFirst(sorted, b, matches, ascending);
    }
  }

  lemma SliceIsOrdered(sorted: seq<CapturedRequest>, a: nat, b: nat, matches: set<CapturedRequest>, ascending: bool)
    requires a <= b <= |sorted| && InTimeOrder(ToRows(sorted), ascending) && forall x :: x in sorted ==> x in matches
    ensures var rows := ToRows(sorted[a..b]);
      InTimeOrder(rows, ascending) && forall i :: 0 <= i < |rows| ==> ShowsMatch(rows[i], matches)
  {
    var all, rows := ToRows(sorted), ToRows(sorted[a..b]);
    forall i | 0 <= i < |rows| ensures ShowsMatch(rows[i], matches) {
      assert sorted[a + i] in sorted && ShowsRequest(rows[i], sorted[a + i]);
    }
    forall i, j | 0 <= i < j < |rows|
      ensures if ascending then rows[i].receivedAt <= rows[j].receivedAt else rows[i].receivedAt >= rows[j].receivedAt
    {
      assert rows[i] == all[a + i] && rows[j] == all[a + j];
    }
  }

  lemma FrontComesFirst(sorted: seq<CapturedRequest>, b: nat, matches: set<CapturedRequest>, ascending: bool)
    requires b <= |sorted| && InTimeOrder(ToRows(sorted), ascending) && forall x :: x in matches ==> x in sorted
    ensures NoneBefore(ToRows(sorted[..b]), matches, ascending)
  {
    var rows := ToRows(sorted[..b]);
    assert forall j :: 0 <= j < b ==> rows[j].id == sorted[j].id;
    forall x, i | x in matches && 0 <= i < |rows| && (forall j :: 0 <= j < |rows| ==> rows[j].id != x.id)
      ensures if ascending then rows[i].receivedAt <= x.receivedAt else rows[i].receivedAt >= x.receivedAt
    {
      var k :| 0 <= k < |sorted| && sorted[k] == x;
      assert ToRows(sorted)[i].receivedAt == rows[i].receivedAt && ToRows(sorted)[k].receivedAt == x.receivedAt;
    }
  }

  ghost predicate DistinctTimes(matches: set<CapturedRequest>) {
    forall x, y :: x in matches && y in matches && x.receivedAt == y.receivedAt ==> x == y
  }

  /** When no two matching requests were received at once, every page is cut from the same list. */
  lemma ListingFromOneList(rows: seq<Row>, matches: set<CapturedRequest>, ascending: bool, page: Pagination,
        sorted: seq<CapturedRequest>)
    requires IsListing(rows, matches, ascending, page) && DistinctTimes(matches)
    requires SortedBy(ReceivedOrder(ascending), sorted) && multiset(sorted) == multiset(matches)
    ensures Paginate(sorted, page).Some? && rows == ToRows(Paginate(sorted, page).value)
  {
    var other :| SortedBy(ReceivedOrder(ascending), other) && multiset(other) == multiset(matches)
      && Paginate(other, page).Some? && rows == ToRows(Paginate(other, page).value);
    var less := ReceivedOrder(ascending);
    ListOfSet(other, matches);
    assert Separates(less, other);
    ArrangementUnique(less, other, sorted);
  }

  /** A client that reads pages 1, 2, ... of an unchanged store. */
  ghost predicate ReadsPages(pages: seq<seq<Row>>, matches: set<CapturedRequest>, ascending: bool, pageSize: int) {
    forall i :: 0 <= i < |pages| ==> IsListing(pages[i], matches, ascending, Pagination(i + 1, pageSize))
  }

  function Concat(pages: seq<seq<Row>>): seq<Row> {
    if pages == [] then [] else Concat(pages[..|pages| - 1]) + pages[|pages| - 1]
  }

  lemma {:induction false} ReadPagesArePrefix(pages: seq<seq<Row>>, matches: set<CapturedRequest>,
        ascending: bool, pageSize: int, sorted: seq<CapturedRequest>)
    requires 0 < pageSize && |pages| * pageSize <= INT64_MAX
    requires ReadsPages(pages, matches, ascending, pageSize) && DistinctTimes(matches)
    requires SortedBy(ReceivedOrder(ascending), sorted) && multiset(sorted) == multiset(matches)
    ensures Concat(pages) == ToRows(FirstPages(sorted, pageSize, |pages|))
  {
    if pages != [] {
      var front, last := pages[..|pages| - 1], pages[|pages| - 1];
      OneLess(|pages|, pageSize);
      ReadPagesArePrefix(front, matches, ascending, pageSize, sorted);
      hide IsListing, SortedBy, FirstPages, Paginate;
      assert IsListing(last, matches, ascending, Pagination(|pages|, pageSize));
      ListingFromOneList(last, matches, ascending, Pagination(|pages|, pageSize), sorted);
      PagesGrow(sorted, pageSize, |pages|);
    }
  }

  lemma PagesGrow(sorted: seq<CapturedRequest>, pageSize: int, count: nat)
    requires 0 < pageSize && 0 < count && count * pageSize <= INT64_MAX
    ensures 0 <= (count - 1) * pageSize <= count * pageSize
    ensures Paginate(sorted, Pagination(count, pageSize)).Some?
    ensures ToRows(FirstPages(sorted, pageSize, count))
      == ToRows(FirstPages(sorted, pageSize, count - 1)) + ToRows(Paginate(sorted, Pagination(count, pageSize)).value)
  {
    OneLess(count, pageSize);
    OffsetsOfFitting(|sorted|, Pagination(count, pageSize));
  }

  /** Reading all pages lists as many rows as there are matches, each match among them, and all in the order
      asked, across the pages as within them. */
  lemma AllPagesInOrder(pages: seq<seq<Row>>, matches: set<CapturedRequest>, ascending: bool, pageSize: int)
    requires 0 < pageSize && |matches| + pageSize <= INT64_MAX
    requires |pages| == BuildPaginationMeta(|matches|, Pagination(1, pageSize)).totalPages
    requires ReadsPages(pages, matches, ascending, pageSize) && DistinctTimes(matches)
    ensures |Concat(pages)| == |matches| && InTimeOrder(Concat(pages), ascending)
    ensures forall x :: x in matches ==> exists i :: 0 <= i < |Concat(pages)| && ShowsRequest(Concat(pages)[i], x)
  {
    if pages == [] {
      TotalPagesCover(|matches|, Pagination(1, pageSize));
      return;
    }
    assert IsListing(pages[0], matches, ascending, Pagination(1, pageSize));
    var sorted :| SortedBy(ReceivedOrder(ascending), sorted) && multiset(sorted) == multiset(matches);
    AllPagesListAll(pages, matches, ascending, pageSize, sorted);
    SortedInTime(sorted, ascending);
    ListOfSet(sorted, matches);
    hide SortedBy, ReadsPages, DistinctTimes, BuildPaginationMeta, Concat, IsListing, InTimeOrder, ShowsRequest, ToRows;
    EachHasRow(sorted);
  }

  lemma EachHasRow(sorted: seq<CapturedRequest>)
    ensures forall x :: x in sorted ==> exists i :: 0 <= i < |sorted| && ShowsRequest(ToRows(sorted)[i], x)
  {
    forall x | x in sorted ensures exists i :: 0 <= i < |sorted| && ShowsRequest(ToRows(sorted)[i], x) {
      var k :| 0 <= k < |sorted| && sorted[k] == x;
      assert ShowsRequest(ToRows(sorted)[k], x);
    }
  }

  /** Reading all pages lists every matching request exactly once, in order. */
  lemma AllPagesListAll(pages: seq<seq<Row>>, matches: set<CapturedRequest>, ascending: bool, pageSize: int,
        sorted: seq<CapturedRequest>)
    requires 0 < pageSize && |matches| + pageSize <= INT64_MAX
    requires |pages| == BuildPaginationMeta(|matches|, Pagination(1, pageSize)).totalPages
    requires ReadsPages(pages, matches, ascending, pageSize) && DistinctTimes(matches)
    requires SortedBy(ReceivedOrder(ascending), sorted) && multiset(sorted) == multiset(matches)
    ensures Concat(pages) == ToRows(sorted)
  {
    ListOfSet(sorted, matches);
    hide SortedBy, ReadsPages, DistinctTimes, FirstPages, BuildPaginationMeta;
    PagesPartition(sorted, pageSize);
    ReadPagesArePrefix(pages, matches, ascending, pageSize, sorted);
  }
}
